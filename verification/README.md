# Block decoration of an Edge Delivery site, in Dafny

This project models the custom blocks of a website built on Adobe Edge
Delivery Services. An author writes each block as a table. When the page
loads, the block's script reads the table's rows and replaces them with
the real component. The model covers these parts:

- the shared helpers in `scripts/block-utils.js`;
- the content listing, which reads a key/value configuration, fetches the
  site's JSON index and filters, sorts, limits and renders it as cards,
  with optional filter buttons;
- the header: the navigation fragment parsed in two forms, the brand and
  menu, marking the active link, site search and the hamburger toggle;
- the card grid, with its column map and social icons;
- the sidebar list, which has a "related articles" mode and a "facts"
  mode;
- the FAQ accordion;
- the hero slider;
- the tabs.

A block is abstracted to its rows, a row to its cells, and a cell to what
the scripts read of it:

- its text content;
- its anchors;
- its inline `p`/`span`/`strong` texts;
- its first image;
- its element count.

JavaScript's string operations appear as Dafny functions:

- `trim`, `toLowerCase`, the header slug `trim().toLowerCase().replace(/\s+/g, '-').replace(/[^\w-]/g, '')`;
- `parseInt`, `split`, `<` on strings.

Numeric `%` takes JavaScript's sign rule. Code that works step by step
takes these forms:

- each loop is a `method` proved against a function;
- state that the page keeps is a `class` whose methods keep a validity
  invariant: a filter bar's highlights, an accordion item, the slider,
  the tab set, the search box, the nav's `aria-expanded`.

Modules:

- `Common`, `JsNumber`: `common.dfy`;
- `JsString`: `js_string.dfy`;
- `Sequences`: `sequences.dfy`;
- `StableSort`: `stable_sort.dfy`;
- `IndexItem`: `index_item.dfy`;
- `BlockUtils`: `block_utils.dfy`;
- `ListingConfig`, `ListingPipeline`, `ListingRender`, `ListingFilters`,
  `ContentListing`: the content listing;
- `HeaderNav`, `Header`: the header;
- `CardGrid`, `SidebarList`, `FaqAccordion`, `Hero`, `Tabs`: the other
  blocks.

## Model

| member | source | states |
|---|---|---|
| BlockUtils.BlockRows | scripts/block-utils.js:13-30 | A missing block has no rows. Otherwise the result is the block's rows, with the first row dropped exactly when the block has a name and that row is one cell whose trimmed text equals the name, ignoring case. |
| BlockUtils.GetCell | scripts/block-utils.js:39-42 | A cell comes back exactly when the row exists and the index is in range, and it is the cell at that index. |
| BlockUtils.GetCellText | scripts/block-utils.js:51-54 | The cell's trimmed text, or `""` for a missing cell; the result never starts or ends with white space. |
| BlockUtils.El | scripts/block-utils.js:106-111 | The element keeps its tag and class and never gets an `href`. A text argument becomes its text; an options object becomes the text `[object Object]`. |
| BlockUtils.MoveChildren | scripts/block-utils.js:79-84 | The target ends with its old children followed by the source's, in order, and the source ends empty. A missing source or target changes nothing. |
| BlockUtils.ClearBlock | scripts/block-utils.js:91-96 | A present block ends with no children. |
| JsString.TrimIsTrimmed | scripts/block-utils.js:53 | `trim` leaves no white space at either end, and gives `""` exactly when the text is all white space. |
| JsString.TrimIdempotent | scripts/block-utils.js:53 | Trimming twice is trimming once. |
| JsString.TrimStartSpec | scripts/block-utils.js:53 | The leading cut keeps a suffix that starts with a non-space and removes only white space. |
| JsString.TrimEndSpec | scripts/block-utils.js:53 | The trailing cut keeps a prefix that ends with a non-space and removes only white space. |
| JsString.LowerSpec | blocks/content-listing/content-listing.js:25 | `toLowerCase` maps each character on its own. |
| JsString.LowerIdempotent | blocks/content-listing/content-listing.js:25 | Lower-casing twice is lower-casing once. |
| JsString.CollapseSpacesNoSpace | blocks/content-listing/content-listing.js:26 | No white space is left after `replace(/\s+/g, '-')`. |
| JsString.KeepWordCharsSpec | blocks/content-listing/content-listing.js:27 | Only word characters and `-` are left after `replace(/[^\w-]/g, '')`. |
| JsString.SlugIsSlug | blocks/content-listing/content-listing.js:23-27 | A slugged header holds only lower-case letters, digits, `_` and `-`. |
| JsString.SlugIdempotent | blocks/content-listing/content-listing.js:23-27 | Slugging a slug changes nothing. |
| JsString.ParseInt | blocks/content-listing/content-listing.js:139 | `parseInt(s, 10)` reads a number only when the text contains a decimal digit. |
| JsString.ParseIntDecimal | blocks/content-listing/content-listing.js:139 | `parseInt` reads back the decimal spelling of every natural number. |
| JsString.TokensSpec | blocks/card-grid/card-grid.js:56 | Every piece of `split(/[\s,|]+/)` that is kept is non-empty and holds no separator. |
| JsString.TokensSplit | blocks/card-grid/card-grid.js:56 | The text is exactly its pieces, in order, interleaved with runs of separators: possibly empty before the first piece and after the last, non-empty between two pieces, and non-empty in front when the text starts with a separator. With TokensSpec, the pieces are the maximal runs of non-separators. |
| JsString.LexLessTotal | blocks/content-listing/content-listing.js:124-125 | Of two different strings, one is smaller under `<`. |
| JsString.LexLessTransitive | blocks/content-listing/content-listing.js:132-133 | String `<` is transitive. |
| JsString.LexLessIrreflexive | blocks/content-listing/content-listing.js:132-133 | No string is smaller than itself. |
| JsNumber.Remainder | blocks/hero/hero.js:132 | JavaScript's `%`: the result lies strictly between `-n` and `n`, never negative for a non-negative dividend and never positive for a negative one. |
| JsNumber.WrapSpec | blocks/hero/hero.js:132 | `(i + n) % n` lands in `[0, n)` for every `i` from `-n` on and is `i`'s residue. Stepping back from 0 gives `n - 1`; stepping on from `n - 1` gives 0. |
| StableSort.InsertionSort | blocks/content-listing/content-listing.js:121-135 | The sort returns a rearrangement of its input: the same multiset and the same length. |
| StableSort.InsertionSortSorted | blocks/content-listing/content-listing.js:121-135 | No element of the output goes strictly before one that precedes it under the comparator. |
| StableSort.InsertionSortStable | blocks/content-listing/content-listing.js:121-135 | Elements sharing a key come out in the order they went in. |
| ListingConfig.ParseConfig | blocks/content-listing/content-listing.js:4-55 | The map is the replay of the header+value pair's writes, then the key/value rows' writes, the last write to a key winning; every key is a non-empty slug. |
| ListingConfig.ReadHeaderPair | blocks/content-listing/content-listing.js:20-33 | The column loop builds exactly the replay of the column writes. |
| ListingConfig.ReadKeyValueRows | blocks/content-listing/content-listing.js:37-52 | The row loop builds exactly the replay of the rows' writes over the map it starts from. |
| ListingConfig.AllConfigKeysAreSlugs | blocks/content-listing/content-listing.js:23-50 | Every key of a parsed configuration is a non-empty slug. |
| ListingConfig.HeaderColumnValue | blocks/content-listing/content-listing.js:22-33 | A column whose slugged header is non-empty, and not repeated by a later column, maps to the trimmed value at the same index. |
| ListingConfig.HeaderPairShape | blocks/content-listing/content-listing.js:14-19 | Two rows without equal, non-zero cell counts give an empty configuration; with them, every non-empty header key is present. |
| ListingConfig.LaterRowOverwrites | blocks/content-listing/content-listing.js:37-52 | A later row with two cells and a non-empty key sets that key to its trimmed value and leaves every other key alone; any other row changes nothing. |
| ListingConfig.ApplyLastWrite | blocks/content-listing/content-listing.js:48-50 | The last write to a key decides its value. |
| ListingConfig.ApplyUntouched | blocks/content-listing/content-listing.js:48-50 | A key no write touches keeps its presence and value. |
| ListingPipeline.NormalizePathFilter | blocks/content-listing/content-listing.js:77-87 | `null` exactly for a missing or blank filter. Otherwise the trimmed filter, less one trailing `*` when it ends in one. |
| ListingPipeline.StarFilterIsPrefixFilter | blocks/content-listing/content-listing.js:82-85 | `p*` and `p` give the same prefix. |
| ListingPipeline.FilterByPath | blocks/content-listing/content-listing.js:99-101 | Throws exactly when some item's path is a list. Otherwise keeps, in order, exactly the items whose path starts with the prefix. |
| ListingPipeline.FilterByPathCounts | blocks/content-listing/content-listing.js:99-101 | Each kept item occurs in the result as often as in the input, and no other item occurs. |
| ListingPipeline.FilterByField | blocks/content-listing/content-listing.js:103-116 | Keeps, in order, exactly the items whose field is truthy and equals the wanted value ignoring case; for a list, some element must. Each kept item occurs as often as in the input. |
| ListingPipeline.FixedFilterIgnoresCase | blocks/content-listing/content-listing.js:106-107 | Two configurations whose filter values differ only in case filter alike. |
| ListingPipeline.SortItems | blocks/content-listing/content-listing.js:118-136 | Throws exactly when sorting two or more items by title and some title is a list. Otherwise the result is a rearrangement; without a known sort the input is unchanged. |
| ListingPipeline.SortItemsOrdered | blocks/content-listing/content-listing.js:118-136 | A successful sort is ordered as the comparator demands (newest date first, or title ascending), and items with equal keys keep their order. |
| ListingPipeline.LimitOf | blocks/content-listing/content-listing.js:139-140 | There is a limit exactly when `parseInt` gives a number above zero, and it is that number. |
| ListingPipeline.TakeLimit | blocks/content-listing/content-listing.js:141 | The result is a prefix: the whole list without a limit, else as long as the limit or the list, whichever is shorter. |
| ListingPipeline.LimitKeepsTop | blocks/content-listing/content-listing.js:138-142 | Cutting a sorted list keeps it sorted, and no dropped item goes strictly before a kept one. |
| ListingPipeline.PlanOf | blocks/content-listing/content-listing.js:96-99 | The path filter is on exactly when `path-prefix`, else `path-filter`, normalizes to a non-empty prefix, and then that is the prefix. |
| ListingPipeline.SelectedThrows | blocks/content-listing/content-listing.js:95-116 | The two filters throw exactly when the path filter is on and some item's path is a list. |
| ListingPipeline.SelectedSpec | blocks/content-listing/content-listing.js:95-116 | The two filters keep, in order, exactly the items that pass every active filter, each as often as in the input. |
| ListingPipeline.SortAndFilterOfMissing | blocks/content-listing/content-listing.js:93 | Input that is not a list gives an empty listing. |
| ListingPipeline.RunSelects | blocks/content-listing/content-listing.js:92-145 | Every listed item comes from the input, no more often than there, and passes every active filter. |
| ListingPipeline.RunOrderAndLimit | blocks/content-listing/content-listing.js:118-142 | The listing is in the configured order and no longer than the limit. Without a sort it keeps the input order; without a limit it holds every item that passes the filters. |
| ListingPipeline.RunThrows | blocks/content-listing/content-listing.js:92-145 | The listing throws only when some item has a list-valued path or title; with the path filter on, any list-valued path makes it throw. |
| ListingRender.Get | blocks/content-listing/content-listing.js:61-66 | The configured field wins when the item has it, then the fallback field when the item has it, else `""`. |
| ListingRender.MapFieldsDefaults | blocks/content-listing/content-listing.js:68-74 | Without field overrides a card reads `title`, `description`, `image` and `path`, and has no tag. |
| ListingRender.MapFieldsOverride | blocks/content-listing/content-listing.js:62-63 | A configured title field that the item has wins, even when its value is empty. |
| ListingRender.CardOf | blocks/content-listing/content-listing.js:174 | There is a card exactly when the title, summary or image is truthy. |
| ListingRender.CardShape | blocks/content-listing/content-listing.js:176-213 | Every card shows an image, a title or a summary. For a string path, the link target is `#` exactly when the path is empty or `#`. The image's alt text is the title shown. |
| ListingRender.CardsOfMembers | blocks/content-listing/content-listing.js:169-218 | Every card comes from an item, and every item with something to show gets its card. |
| ListingRender.CardsOfAppend | blocks/content-listing/content-listing.js:169-218 | Rendering a concatenation renders each part in turn. |
| ListingRender.CardsHost.RenderCards | blocks/content-listing/content-listing.js:164-221 | The host's earlier content is discarded. Afterwards it holds exactly the items' cards, in order. |
| ListingFilters.ItemValues | blocks/content-listing/content-listing.js:230-237 | A missing or falsy field contributes no value. |
| ListingFilters.AddAllSpec | blocks/content-listing/content-listing.js:234-236 | Adding to the value set keeps it free of repeats and keeps earlier values in place. It then holds exactly the old and the added values. |
| ListingFilters.ValuesOfSpec | blocks/content-listing/content-listing.js:227-240 | The value set holds each value once, and exactly the values some item contributes. |
| ListingFilters.CollectValues | blocks/content-listing/content-listing.js:227-240 | The two nested loops build that value set. |
| ListingFilters.FilterValuesSpec | blocks/content-listing/content-listing.js:240-243 | The button values are strictly ascending and are exactly the values the items carry. |
| ListingFilters.Buttons | blocks/content-listing/content-listing.js:274-280 | "All" comes first, then one button per value, in order. |
| ListingFilters.FilterBar.constructor | blocks/content-listing/content-listing.js:248-280 | The bar holds the corrected "All" (see Findings) and the values, with only "All" highlighted and active. |
| ListingFilters.FilterBar.Click | blocks/content-listing/content-listing.js:259-269 | A click on the active button changes nothing. Otherwise its value becomes active, only its highlight is set, and the selection (`null` for the corrected "All", see Findings) is handed on. |
| ListingFilters.OneHighlighted | blocks/content-listing/content-listing.js:255-265 | Exactly one button is highlighted: the active one. |
| ListingFilters.BuildFilters | blocks/content-listing/content-listing.js:226-284 | No bar when there are no values. Otherwise the corrected "All" (see Findings) plus the sorted values, with "All" active. |
| ListingFilters.ItemsCarrying | blocks/content-listing/content-listing.js:233-234 | Keeps, in order, exactly the items that carry the value, either as the field itself or as one of its list elements, each as often as in the input. |
| ListingFilters.EveryButtonSelects | blocks/content-listing/content-listing.js:320-326 | Every value button selects at least one item, and only items that carry its value. |
| ListingFilters.ItemsWithTemplate | blocks/content-listing/content-listing.js:322-325 | Keeps, in order, exactly the items whose `` `${item[field]}` `` equals the value, each as often as in the input. |
| ListingFilters.ListElementSelectsNothingAsWritten | blocks/content-listing/content-listing.js:322-325 | A button built from a list element selects nothing as written, but every carrying item once corrected. |
| ListingFilters.InitialHighlightsAsWritten | blocks/content-listing/content-listing.js:255-257 | As written, "All" starts highlighted, together with every value equal to `__all__`. |
| ListingFilters.SentinelCollisionAsWritten | blocks/content-listing/content-listing.js:248-267 | A value `__all__` starts highlighted beside "All" and selects as "All"; the corrected buttons keep the two apart. |
| ContentListing.JsonUrl | blocks/content-listing/content-listing.js:153 | The configured `json-path`, else `/query-index.json`. |
| ContentListing.FetchedItems | blocks/content-listing/content-listing.js:154-158 | Throws exactly for a failed response. Otherwise gives the payload's `data` list, or no items when there is none. |
| ContentListing.CtaOf | blocks/content-listing/content-listing.js:303-312 | The call-to-action is present exactly when both its label and its URL are configured, and carries them. |
| ContentListing.Decorate | blocks/content-listing/content-listing.js:289-344 | The block stays as authored exactly when the fetch or `sortAndFilter` throws. Otherwise the listing holds the sorted items, the cards of all of them, the configured call-to-action, and the filter bar exactly when filters are enabled and values exist. |
| ContentListing.SelectFilter | blocks/content-listing/content-listing.js:259-328 | A click that changes the selection re-renders the cards of the items carrying the chosen value, or of all items for "All" (the corrected selection, see Findings). A click on the active button leaves the cards alone. |
| HeaderNav.LogoOfRow | blocks/header/header.js:15-37 | No logo without a second cell. The image comes first when it has a source; else the trimmed text when it is not empty. |
| HeaderNav.LogoStep | blocks/header/header.js:51-67 | A logo row never adds a menu entry. |
| HeaderNav.StepsAgree | blocks/header/header.js:47-133 | The block parser and the table parser treat every row alike. |
| HeaderNav.ParsersAgree | blocks/header/header.js:39-136 | Both forms of the nav give the same entries and logo for the same rows. |
| HeaderNav.BlockNavEntries | blocks/header/header.js:47-84 | The entries are, in row order, the entry each row gives (EntryOfRow), rows without one skipped; there are no more entries than rows. |
| HeaderNav.NavEntriesFromRows | blocks/header/header.js:74-80 | Every entry has a non-empty text and href read from some row's first two cells, and a style read from its third, `primary` when that is missing or blank. Every row that gives an entry has it in the nav. |
| HeaderNav.LogoStepEffect | blocks/header/header.js:51-67 | A row replaces the logo with the one it yields on its own, and otherwise keeps the earlier logo. |
| HeaderNav.BlockNavLogo | blocks/header/header.js:47-84 | The nav's logo is the last logo a row yields, scanning the rows from the end. |
| HeaderNav.LastLogoWins | blocks/header/header.js:47-84 | There is no logo exactly when no row yields one. Otherwise the logo is that of a row after which no row yields one: the last logo row wins. |
| HeaderNav.LogoRowEffect | blocks/header/header.js:51-67 | A logo row adds no entry. When it yields a logo, that logo replaces any earlier one. |
| HeaderNav.HeaderRowSkipped | blocks/header/header.js:69-72 | The `nav / label` header row changes nothing. |
| HeaderNav.ParseNavFromBlock | blocks/header/header.js:39-84 | The row loop builds the block form's nav. |
| HeaderNav.FindNavTable | blocks/header/header.js:89-93 | The index found names an existing, non-empty table. |
| HeaderNav.FindNavTableSpec | blocks/header/header.js:89-94 | There is none exactly when no table starts with `nav`. Otherwise it is the first table that does. |
| HeaderNav.ReadTableRows | blocks/header/header.js:100-133 | The row loop builds the table form's nav. |
| HeaderNav.ParseNavFromTable | blocks/header/header.js:86-136 | Nothing without a nav table; otherwise the nav from that table's rows after the first. |
| HeaderNav.GetNavConfig | blocks/header/header.js:138-143 | Nothing without a fragment. The block form when it found an entry or a logo, else the table form. |
| HeaderNav.EffectiveConfig | blocks/header/header.js:236 | The parsed entries when there are any, else the default menu; never empty. |
| HeaderNav.HomeIndex | blocks/header/header.js:250 | The first entry labelled `home` in any case, else the first entry. |
| HeaderNav.MenuSpec | blocks/header/header.js:251 | The menu is the configuration with exactly the home entry taken out, order kept. |
| HeaderNav.DefaultMenu | blocks/header/header.js:7-13 | With the default menu the brand links to `/us/en/home` and the menu is the other four entries. |
| Header.BrandOf | blocks/header/header.js:264-274 | The image logo, the text logo, or the text `WKND` when there is no logo. |
| Header.Links | blocks/header/header.js:283-291 | One link per menu entry, in order; `secondary` exactly for the style `secondary`. |
| Header.NavViewSpec | blocks/header/header.js:250-291 | The brand links to the home entry, and the menu lists every other entry once, in order. |
| Header.DefaultNavView | blocks/header/header.js:236-251 | Without authored entries the brand links to `/us/en/home` and the menu has four links. |
| Header.StripTrailingSlashesSpec | blocks/header/header.js:323 | What is left is a prefix that does not end in `/`, and only slashes were dropped. |
| Header.NormalizePathSpec | blocks/header/header.js:323 | A normalized path is never empty and ends in `/` only when it is `/`. Normalizing twice is normalizing once. It is `/` exactly when the path is all slashes. |
| Header.MarkActiveNav | blocks/header/header.js:322-347 | The active link is the first of the longest link paths that cover the current page. There is none exactly when no link covers it. |
| Header.Hits | blocks/header/header.js:201-206 | Throws exactly when some item's title or description is a list. Otherwise keeps, in order, exactly the items whose lower-cased title or description contains the term. |
| Header.HitsCounts | blocks/header/header.js:201-206 | Each hit occurs among the hits as often as in the index, and no other item occurs. |
| Header.SearchResultsSpec | blocks/header/header.js:199-207 | The results are the first eight hits in index order, or all of them when there are fewer. |
| Header.SearchIndex | blocks/header/header.js:154-162 | The response's `data` list, or nothing when the request or the payload fails. |
| Header.ListLinks | blocks/header/header.js:212-218 | One result link per match, in order. |
| Header.SearchBox.Clear | blocks/header/header.js:184-187 | The panel is empty and closed. |
| Header.SearchBox.OnInput | blocks/header/header.js:191-221 | A blank term clears the panel, and so does a search without hits. Otherwise the panel lists the results' links and is open. A search that throws changes nothing. |
| Header.Nav.constructor | blocks/header/header.js:245 | `aria-expanded` starts `true` exactly on a desktop-wide viewport. |
| Header.Nav.ToggleMenu | blocks/header/header.js:145-150 | `true` becomes `false` and anything else `true`, so the attribute always flips. |
| Header.Nav.MediaChange | blocks/header/header.js:314-317 | `aria-expanded` follows the viewport crossing the breakpoint. |
| CardGrid.NormalizeHeaderSpec | blocks/card-grid/card-grid.js:13-28 | A key is a slug, empty exactly when the slug is. `image…` folds onto `image`, `social…` onto `social`, `title` onto `role`; `name`, `role` and every other header keep their slug. |
| CardGrid.NormalizeHeaderIdempotent | blocks/card-grid/card-grid.js:13-28 | Normalizing a key again changes nothing. |
| CardGrid.FoldAliasesIdempotent | blocks/card-grid/card-grid.js:20-27 | Folding a folded key changes nothing. |
| CardGrid.FirstOccurrenceMap | blocks/card-grid/card-grid.js:96-105 | Every non-empty key maps to the index of its first occurrence, and no other key is mapped (inherited keys aside, see Left out). |
| CardGrid.ColumnMap | blocks/card-grid/card-grid.js:96-110 | The column of each key is its first header cell. |
| CardGrid.FirstIndex | blocks/card-grid/card-grid.js:101-104 | The first index holding the key, or none when no index does. |
| CardGrid.Sources | blocks/card-grid/card-grid.js:47-50 | The anchors when the container has any, else its `p`, `span` and `strong` texts. |
| CardGrid.TokenIcon | blocks/card-grid/card-grid.js:57-63 | A token gives an icon exactly when its lower-cased text names a network, linked to its anchor's `href`. |
| CardGrid.TokenIconsSpec | blocks/card-grid/card-grid.js:57-64 | Every icon carries its source's `href`. Every token gives an icon exactly when each names a network. |
| CardGrid.ThreeLetters | blocks/card-grid/card-grid.js:35-64 | Example: `F T I` gives the Facebook, Twitter and Instagram icons, in order. |
| CardGrid.BlankSource | blocks/card-grid/card-grid.js:53-54 | A blank source gives no icons. |
| CardGrid.AddTokenIcons | blocks/card-grid/card-grid.js:57-64 | The inner loop appends one icon per part that names a network. |
| CardGrid.CollectIcons | blocks/card-grid/card-grid.js:52-65 | The outer loop collects the icons of all sources, in order. |
| CardGrid.SocialIcons | blocks/card-grid/card-grid.js:34-82 | With no matching token the container stays as it is. Otherwise its content becomes exactly the icons. |
| CardGrid.At | blocks/card-grid/card-grid.js:127 | A cell comes back exactly when the column exists and the row has that cell. |
| CardGrid.CardOf | blocks/card-grid/card-grid.js:120-178 | A row gives a card exactly when it has cells and its image cell holds an element, its name or role cell has non-blank text, or its social cell yields content; otherwise the card is dropped. Each part is present exactly when its cell has something: the image is that cell, the name and role are the cells' texts, and the social part is the enhanced social cell. |
| CardGrid.CardsOfSpec | blocks/card-grid/card-grid.js:120-178 | Every card comes from a row with cells, and every row with something to show gives its card. |
| CardGrid.BuildCards | blocks/card-grid/card-grid.js:120-178 | The row loop builds the cards of the data rows, in order. |
| CardGrid.Decorate | blocks/card-grid/card-grid.js:83-182 | Nothing happens without rows or with an empty header row. Otherwise the grid is the cards of the data rows, read through the header's columns. |
| SidebarList.LastIndex | blocks/sidebar-list/sidebar-list.js:25-28 | The last index holding the key, or none when no index does. |
| SidebarList.LastMap | blocks/sidebar-list/sidebar-list.js:23-28 | The keys mapped are exactly the non-empty header keys. |
| SidebarList.LastOccurrenceMap | blocks/sidebar-list/sidebar-list.js:25-28 | The header loop maps every non-empty key to its last occurrence. |
| SidebarList.HeaderMap | blocks/sidebar-list/sidebar-list.js:21-28 | The header map is the last-occurrence map of the header's keys. |
| SidebarList.LastOccurrencesMap | blocks/sidebar-list/sidebar-list.js:25-28 | A map with the last-occurrence property is the last-occurrence map. |
| SidebarList.Either | blocks/sidebar-list/sidebar-list.js:35-49 | `a ?? b ?? fallback` over the header map. |
| SidebarList.DetectModeSpec | blocks/sidebar-list/sidebar-list.js:21-59 | The related mode is chosen exactly when a `title` or `name` column exists; it reads the title from `title` then `name`, the date from `date`, `published`, `published-date`, else column 1, and the path from `path`, `link`, else column 2. Otherwise facts read `label` and `value`/`detail`, or the first two columns. |
| SidebarList.TitleLink | blocks/sidebar-list/sidebar-list.js:89-92 | The title link reads the title and points at the path, or at `#` for an empty path. |
| SidebarList.TitleLinkAsWrittenLosesTitle | blocks/sidebar-list/sidebar-list.js:89-92 | As written, the link reads `[object Object]` and has no `href`. |
| SidebarList.RelatedOf | blocks/sidebar-list/sidebar-list.js:79-99 | An entry exactly for a row with a title. Its link is the corrected title link to the path (see Findings); its date is the date cell's text, present exactly when not blank. |
| SidebarList.FactOf | blocks/sidebar-list/sidebar-list.js:112-122 | A fact, with the row's label and value, unless both are blank. |
| SidebarList.RelatedEntriesSpec | blocks/sidebar-list/sidebar-list.js:78-102 | The related list holds an entry for every row with a title, and only those. |
| SidebarList.FactsSpec | blocks/sidebar-list/sidebar-list.js:111-123 | The facts list holds a fact for every row with a label or a value, and only those. |
| SidebarList.BuildRelated | blocks/sidebar-list/sidebar-list.js:78-102 | The related-mode loop builds the related list. |
| SidebarList.BuildFacts | blocks/sidebar-list/sidebar-list.js:111-123 | The facts-mode loop builds the facts list. |
| SidebarList.Decorate | blocks/sidebar-list/sidebar-list.js:61-126 | Nothing happens without a data row below the header. Otherwise the list of the mode the header selects replaces the table. |
| FaqAccordion.DataRows | blocks/faq-accordion/faq-accordion.js:14-21 | The rows below a `question`/`q` header row, else every row. |
| FaqAccordion.FaqOf | blocks/faq-accordion/faq-accordion.js:24-37 | An item exactly for a row with cells and a question, which is the first cell's text. Its answer is the second cell, present exactly when there is one; its category and tag are the third and fourth cells' texts, empty without those cells. |
| FaqAccordion.FaqItemsSpec | blocks/faq-accordion/faq-accordion.js:23-38 | Every item has a question and comes from a row, and every row with a question gives one. |
| FaqAccordion.NoItems | blocks/faq-accordion/faq-accordion.js:23-38 | There are no items exactly when no row has a question. |
| FaqAccordion.HeaderRowSkipped | blocks/faq-accordion/faq-accordion.js:16-21 | Example: a `Q / answer` row is a skipped header; a one-cell `Q` row stays a data row. |
| FaqAccordion.FaqItem.constructor | blocks/faq-accordion/faq-accordion.js:69-82 | An item starts closed, with its attributes and icon agreeing. |
| FaqAccordion.FaqItem.Open | blocks/faq-accordion/faq-accordion.js:41-53 | The item is open: `aria-expanded` `true`, `aria-hidden` `false`, icon `–`. |
| FaqAccordion.FaqItem.Close | blocks/faq-accordion/faq-accordion.js:55-67 | The item is closed: `aria-expanded` `false`, `aria-hidden` `true`, icon `+`. |
| FaqAccordion.FaqItem.Click | blocks/faq-accordion/faq-accordion.js:95-102 | A click flips the item between open and closed, attributes agreeing. |
| FaqAccordion.BuildControls | blocks/faq-accordion/faq-accordion.js:109-135 | One fresh, valid control per item, in order, all distinct, and only the first open. |
| FaqAccordion.Decorate | blocks/faq-accordion/faq-accordion.js:122-136 | The controls are those of the block's items, the first open; no items means no controls. |
| Hero.HeroDataRows | blocks/hero/hero.js:10-23 | The rows below an `image / title…` header row, else every row. |
| Hero.FirstLink | scripts/block-utils.js:62-71 | The first anchor with an `href`, or none exactly when no anchor has one. |
| Hero.CtaHref | blocks/hero/hero.js:35-43 | The link in cell 4 when it has one, else that cell's trimmed text; `""` without cell 4. |
| Hero.CtaButton | blocks/hero/hero.js:74-82 | The call-to-action button carries the label as its text and points at the target. |
| Hero.CtaButtonAsWrittenLosesLink | blocks/hero/hero.js:76-79 | As written, the button reads `[object Object]` and points nowhere. |
| Hero.SlideOfSpec | blocks/hero/hero.js:25-88 | Each part of a slide (picture, title, subtitle, button) is present exactly when its cell gives something, and is then that cell's picture or text; the button is the corrected one (see Findings). |
| Hero.SlidesOf | blocks/hero/hero.js:161-164 | One slide per data row, only the first active. |
| Hero.InitiallyOneActive | blocks/hero/hero.js:161-164 | Exactly one slide starts active: the first. |
| Hero.Slider.constructor | blocks/hero/hero.js:94-107 | The slider starts valid at slide 0, with dot 0 active. |
| Hero.Slider.SetActive | blocks/hero/hero.js:131-143 | `current` becomes `(index + total) % total` with JavaScript's `%`. Exactly that slide and dot are active and only that slide is not hidden. |
| Hero.Slider.Prev | blocks/hero/hero.js:145 | Back one slide, from the first to the last. |
| Hero.Slider.Next | blocks/hero/hero.js:146 | On one slide, from the last to the first. |
| Hero.Slider.GoTo | blocks/hero/hero.js:147-149 | Dot `i` makes slide `i` current. |
| Hero.BuildSlides | blocks/hero/hero.js:161-164 | The row loop builds the slides. |
| Hero.Decorate | blocks/hero/hero.js:154-172 | The slides of the data rows. A slider starting at slide 0 is wired exactly when there is more than one slide. |
| Tabs.TabOf | blocks/tabs/tabs.js:22-33 | A tab exactly for a row with a non-blank first cell. It carries that label and its row index, and its content is the second cell, present exactly when there is one. |
| Tabs.TabsOfSpec | blocks/tabs/tabs.js:21-67 | Tabs keep their rows' order, so their ids differ. Every tab comes from its row, and every labelled row gives one. |
| Tabs.InitiallyActive | blocks/tabs/tabs.js:31-60 | A tab starts active only when it came from row 0. When row 0 has no label, no tab starts active. |
| Tabs.TabSet.constructor | blocks/tabs/tabs.js:36-60 | Only the tab from row 0 is active and every other panel is hidden. |
| Tabs.TabSet.Activate | blocks/tabs/tabs.js:77-89 | Exactly the tabs and panels whose id names the target become active; every other panel is hidden. |
| Tabs.TabSet.Click | blocks/tabs/tabs.js:91-94 | A click on a tab leaves that tab alone active and its panel alone shown. |
| Tabs.NextFocus | blocks/tabs/tabs.js:97-103 | Right and left arrows move the focus one tab on or back, wrapping at both ends; other keys are ignored. |
| Tabs.BuildTabs | blocks/tabs/tabs.js:21-67 | The row loop builds the tabs. |
| Tabs.Decorate | blocks/tabs/tabs.js:9-105 | No rows leaves the block alone. Otherwise the tab set of the rows replaces it, in its initial state. |

## Left out

- The network:
  - The content listing's `fetch` is a parameter that maps a URL to a response or its parsed `data`.
  - A body that is not JSON, or a `null` payload, is not modelled. Both would throw, and the block would stay as authored.
- The header's fragment:
  - `getMetadata`, resolving the nav path against the window location, and `loadFragment` are not part of this model.
  - The fragment is a parameter.
- Search in the header:
  - `loadSearchIndex` keeps one promise for every later search. That memoisation is not modelled; `SearchIndex` is the outcome of one load.
  - The 150 ms debounce timer is not modelled. `SearchBox.OnInput` is the handler once the timer fires for the last term.
  - The document-wide click that closes the results is `SearchBox.Clear`.
  - The form's `preventDefault` is not modelled.
- The viewport: `matchMedia` is the `desktop` parameter, and `document.body.style.overflowY` is not modelled.
- URL resolution:
  - `markActiveNav` reads `new URL(link.href).pathname`; the model takes those path names as a parameter (`None` where the URL throws).
  - Anchors' `href` is taken as authored, not resolved to an absolute URL.
  - An anchor whose `href` attribute is empty is treated as one without `href`.
- `localeCompare` is approximated by code-point order (`LexLess` on Dafny strings, whose characters are Unicode scalar values). This also differs from JavaScript's `<`, which compares UTF-16 code units: a character above U+FFFF, such as 😀, sorts after U+E000–U+FFFF (such as ！) here, but before them in JavaScript.
- `toLowerCase` lowers ASCII letters only.
- JSON values:
  - Index fields are strings or lists of strings. Numbers, booleans, `null` and nested objects are not modelled.
  - A configuration key `__proto__` is not given JavaScript's special treatment.
- CardGrid.IconFor: treats every key it does not list as absent. In the source, `iconMap[key]` also finds keys inherited from `Object.prototype` (tokens are lower-cased first, so `constructor` and `__proto__`), so such a token renders an icon whose class and label read `undefined`. CardGrid.TokenIcon and CardGrid.TokenIconsSpec inherit this.
- CardGrid.FirstOccurrenceMap: maps every non-empty key. In the source, `columnMap[key] === undefined` is false for the inherited keys `constructor` and `__proto__`, so a header normalizing to one of them is never mapped. Cards read only `image`, `name`, `role` and `social`, so the cards are the same.
- CardGrid.ColumnMap: inherits the FirstOccurrenceMap gap for the keys `constructor` and `__proto__`.
- ListingFilters.FilterBar.constructor: models the corrected "All" of the sentinel row under "## Findings" (a selection of `None`, distinct from every value), not the `__all__` string as written. As written, a category value `__all__` starts highlighted beside "All", and a click on it does nothing or selects every item (`ListingFilters.InitialHighlightsAsWritten`, `ListingFilters.SentinelCollisionAsWritten`).
- ListingFilters.FilterBar.Click: hands on `None` for the corrected "All", so a click on a `__all__` value is a distinct selection; as written it does nothing or selects every item.
- ListingFilters.BuildFilters: builds the bar with the corrected "All"; the `__all__` collision as written is not stated of it.
- Index item fields: `item[field]` likewise finds inherited `Object.prototype` keys when the field is named `constructor`, `toString` and the like. The model reads such a field as missing.
- The tab ids share a random prefix (`Math.random`). The model names a tab and its panel by the row index, which is what distinguishes them. Moving the focus with `focus()` is `NextFocus`'s result.
- The DOM that is built is kept only as far as the blocks read it back. The following are not modelled:
  - class names, roles, `aria-controls` and `aria-label`;
  - the hero's dots' labels and arrow elements;
  - the FAQ's `maxHeight`, `scrollHeight` and `requestAnimationFrame` animation;
  - the FAQ's category and tag pills, beyond their presence in the item data.
- Moving a cell's children into a card or panel is modelled as taking the cell's value. `BlockUtils.MoveChildren` models the transfer on its own.
- `console.log` and `console.error` are not modelled.
- `getBlockRows` removes the name row from a fresh array with `shift()`; the model computes the same rows as a function.
- `getLinkFromCell` is modelled only where the hero uses it (`Hero.FirstLink` inside `Hero.CtaHref`). Its `label` field is read by no caller.
- `sortAndFilter` sorts a copy of the items in place; the model computes the result as a value.
- The hero's commented-out eyebrow (`tagText`) has no effect and is not modelled.
- SidebarList.RelatedOf: models the corrected title link of the sidebar-list row under "## Findings" (`SidebarList.TitleLink`), not the `[object Object]` link as written.
- Hero.SlideOfSpec: states, like `Hero.SlideOf` it describes, the corrected CTA button of the hero row under "## Findings" (`Hero.CtaButton`), not the `[object Object]` button as written.
- ContentListing.SelectFilter: models the corrected selection of the first two rows under "## Findings" (items carrying the value, and "All" distinct from every value), not the `` `${item[field]}` `` comparison and `__all__` sentinel as written.
- The hero's previous and next arrow buttons are not modelled. As written, they too pass `{ type, text }` to `el` where it takes the text, so they read `[object Object]`.
- The search input's blank-term branch clears the panel without cancelling the pending debounce timer, so a search queued for the previous term can still open the panel. The timer is not modelled, so neither is this.
- BlockUtils.MoveChildren: requires distinct source and target. Moving a non-empty element's children into itself never ends in the source: each move only sends the first child to the end, so the element never empties. A childless element returns at once.
- JsString.Tokens: drops the empty pieces that `split` yields at a leading or trailing separator. No caller does anything with an empty piece.
- JsString.ParseInt: its contract says only that a number needs a digit. Which number is read is stated for decimal spellings (`ParseIntDecimal`), not for signs or trailing text.
- ListingPipeline.SortItems: says the title sort throws whenever two or more items are sorted and one has a list-valued title. That holds only because the engine compares every element at least once.
- ListingRender.CardShape: states the link target only for string-valued paths. A list-valued path is joined with commas.

## Findings

| source | as written | input that shows it | evidently intended | confidence | as-written member | corrected member |
|---|---|---|---|---|---|---|
| blocks/content-listing/content-listing.js:322-325 | a filter button selects the items whose `` `${item[field]}` `` equals its value | an item with `category: ["hiking", "camping"]` gives the button `hiking`, and clicking it shows nothing (`"hiking,camping" !== "hiking"`) | a button built from a list element (lines 233-234) selects the items whose list contains it | not executed | ListingFilters.ListElementSelectsNothingAsWritten | ListingFilters.EveryButtonSelects |
| blocks/content-listing/content-listing.js:248-267 | "All" is represented by the value `__all__` | a category value `__all__`: its button starts highlighted beside "All", and clicking it shows every item | "All" is distinct from every category, and one button is highlighted | not executed | ListingFilters.SentinelCollisionAsWritten | ListingFilters.OneHighlighted |
| blocks/sidebar-list/sidebar-list.js:89-92 | `el('a', …, { href, text })` passes an object where `el` takes the text | any related row, e.g. title `Trail guide`: the link reads `[object Object]` and has no `href` | a link reading the title and pointing at the path, or `#` | not executed | SidebarList.TitleLinkAsWrittenLosesTitle | SidebarList.TitleLink |
| blocks/hero/hero.js:76-79 | `el('a', …, { href, text })` passes an object where `el` takes the text | any slide with a CTA label and target, e.g. `Explore` → `/adventures`: the button reads `[object Object]` and points nowhere | a button reading the label and pointing at the target | not executed | Hero.CtaButtonAsWrittenLosesLink | Hero.CtaButton |
