/**
 * `decorate` of the content-listing block: read the configuration, fetch
 * the JSON index, select, sort and limit its items, then replace the
 * authored block with the listing (optional filter bar, cards, optional
 * call-to-action). Any exception on the way leaves the block as authored.
 */
module ContentListing {
  import opened Common
  import opened JsString
  import opened IndexItem
  import opened BlockUtils
  import opened ListingConfig
  import opened ListingPipeline
  import opened ListingRender
  import opened ListingFilters

  /**
   * The answer to one request for the index: a response that is not OK
   * (with its status), or the parsed payload's `data` (`None` when it is
   * not a list).
   */
  datatype Fetched = Failed(status: nat) | Payload(data: Option<seq<Item>>)

  /** `cfg['json-path'] || '/query-index.json'`. */
  function JsonUrl(cfg: Config): (url: string)
    ensures url != ""
    ensures Cfg(cfg, "json-path") != "" ==> url == Cfg(cfg, "json-path")
    ensures Cfg(cfg, "json-path") == "" ==> url == "/query-index.json"
  {
    if Cfg(cfg, "json-path") != "" then Cfg(cfg, "json-path") else "/query-index.json"
  }

  /** `fetchJson` after the request: a failed response throws; a payload without a `data` list gives no items. */
  function FetchedItems(f: Fetched): (r: Result<seq<Item>>)
    ensures r.Thrown? <==> f.Failed?
    ensures f.Payload? && f.data.None? ==> r == Ok([])
    ensures f.Payload? && f.data.Some? ==> r == Ok(f.data.value)
  {
    match f
    case Failed(status) => Thrown("Failed to fetch listing: " + Decimal(status))
    case Payload(data) => Ok(if data.Some? then data.value else [])
  }

  datatype Cta = Cta(text: string, url: string)

  /** The call-to-action link, present exactly when both its label and its URL are configured. */
  function CtaOf(cfg: Config): (r: Option<Cta>)
    ensures r.Some? <==> Cfg(cfg, "cta-label") != "" && Cfg(cfg, "cta-url") != ""
    ensures r.Some? ==> r.value == Cta(Cfg(cfg, "cta-label"), Cfg(cfg, "cta-url"))
  {
    if Cfg(cfg, "cta-label") != "" && Cfg(cfg, "cta-url") != "" then
      Some(Cta(Cfg(cfg, "cta-label"), Cfg(cfg, "cta-url")))
    else None
  }

  /** A filter field is set and `enable-filters` reads `true` in any case. */
  predicate FiltersEnabled(cfg: Config) {
    Cfg(cfg, "filter-field") != "" && Lower(Cfg(cfg, "enable-filters")) == "true"
  }

  /** What replaces the authored block. */
  datatype Listing = Listing(
    items: seq<Item>,
    filterButtons: Option<seq<Option<string>>>,
    cards: seq<Card>,
    cta: Option<Cta>)

  datatype Outcome = Untouched | Decorated(listing: Listing)

  /**
   * `decorate`. `fetch` stands for the network: the answer to a request for
   * a URL. The block is replaced exactly when the fetch and `sortAndFilter`
   * both succeed; then the listing holds the sorted items, the filter bar
   * when filters are enabled and there are values, every item's card (the
   * initial render selects "All"), and the call-to-action when configured.
   */
  method Decorate(block: Option<Block>, fetch: string -> Fetched) returns (outcome: Outcome)
    ensures var cfg := ConfigOf(BlockRows(block));
      var fetched := FetchedItems(fetch(JsonUrl(cfg)));
      outcome.Untouched? <==> fetched.Thrown? || SortAndFilter(Some(fetched.value), cfg).Thrown?
    ensures outcome.Decorated? ==>
      var cfg := ConfigOf(BlockRows(block));
      var items := SortAndFilter(Some(FetchedItems(fetch(JsonUrl(cfg))).value), cfg).value;
      && outcome.listing.items == items
      && outcome.listing.cards == CardsOf(items, cfg)
      && outcome.listing.cta == CtaOf(cfg)
      && (outcome.listing.filterButtons.Some? <==>
            FiltersEnabled(cfg) && FilterValues(items, Cfg(cfg, "filter-field")) != [])
      && (outcome.listing.filterButtons.Some? ==>
            outcome.listing.filterButtons.value == Buttons(FilterValues(items, Cfg(cfg, "filter-field"))))
  {
    var cfg := ParseConfig(block);
    var fetched := FetchedItems(fetch(JsonUrl(cfg)));
    if fetched.Thrown? {
      return Untouched;
    }
    var sorted := SortAndFilter(Some(fetched.value), cfg);
    if sorted.Thrown? {
      return Untouched;
    }
    var items := sorted.value;
    var field := Cfg(cfg, "filter-field");
    var buttons: Option<seq<Option<string>>> := None;
    if FiltersEnabled(cfg) {
      var bar := BuildFilters(items, field);
      if bar != null {
        buttons := Some(bar.buttons);
      }
    }
    var host := new CardsHost();
    host.RenderCards(ApplyFilter(items, field, None), cfg);
    outcome := Decorated(Listing(items, buttons, host.cards, CtaOf(cfg)));
  }

  /**
   * A click on filter button `i`: when it changes the selection, the cards
   * are re-rendered from the listed items that carry the chosen value, or
   * from all of them for "All".
   */
  method SelectFilter(bar: FilterBar, host: CardsHost, items: seq<Item>, field: string, cfg: Config, i: nat)
    requires bar.Valid() && i < |bar.buttons|
    modifies bar, host
    ensures bar.Valid() && bar.buttons == old(bar.buttons) && bar.active == bar.buttons[i]
    ensures old(bar.active) != bar.buttons[i] ==> host.cards == CardsOf(ApplyFilter(items, field, bar.buttons[i]), cfg)
    ensures old(bar.active) == bar.buttons[i] ==> host.cards == old(host.cards)
  {
    var selected := bar.Click(i);
    if selected.Some? {
      host.RenderCards(ApplyFilter(items, field, selected.value), cfg);
    }
  }
}
