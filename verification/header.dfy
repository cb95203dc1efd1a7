/**
 * The rest of the header block (blocks/header/header.js): the brand link and
 * menu built from the navigation configuration, `markActiveNav` (the
 * longest link path that covers the current page), the search box, and the
 * hamburger's `aria-expanded` toggle.
 */
module Header {
  import opened Common
  import opened JsString
  import opened Sequences
  import opened IndexItem
  import opened HeaderNav

  // ---------------------------------------------------------------------------
  // Brand and menu
  // ---------------------------------------------------------------------------

  datatype Brand = BrandImage(src: string, alt: string) | BrandText(text: string)

  /** A menu link; `secondary` is the `nav-item--secondary` class. */
  datatype MenuLink = MenuLink(text: string, href: string, secondary: bool)

  datatype NavView = NavView(brandHref: string, brand: Brand, menu: seq<MenuLink>)

  /** The logo, or the text `WKND` when there is none. */
  function BrandOf(logo: Option<Logo>): (b: Brand)
    ensures logo.None? ==> b == BrandText("WKND")
    ensures logo.Some? && logo.value.TextLogo? ==> b == BrandText(logo.value.value)
    ensures logo.Some? && logo.value.ImageLogo? ==> b == BrandImage(logo.value.src, logo.value.alt)
  {
    match logo
    case None => BrandText("WKND")
    case Some(ImageLogo(src, alt)) => BrandImage(src, alt)
    case Some(TextLogo(v)) => BrandText(v)
  }

  function LinkOf(e: NavEntry): MenuLink {
    MenuLink(e.text, e.href, e.style == "secondary")
  }

  function Links(entries: seq<NavEntry>): (r: seq<MenuLink>)
    ensures |r| == |entries| && forall i :: 0 <= i < |entries| ==> r[i] == LinkOf(entries[i])
  {
    seq(|entries|, i requires 0 <= i < |entries| => LinkOf(entries[i]))
  }

  /** The part of `decorate` that builds the nav from the parsed configuration. */
  function NavViewOf(nav: NavConfig): NavView {
    var config := EffectiveConfig(nav.config);
    NavView(config[HomeIndex(config)].href, BrandOf(nav.logo), Links(Menu(config)))
  }

  /**
   * The brand links to the home entry (the first labelled "home", else the
   * first), and the menu lists every other entry once, in order.
   */
  lemma NavViewSpec(nav: NavConfig)
    ensures var config := EffectiveConfig(nav.config);
      && NavViewOf(nav).brandHref == config[HomeIndex(config)].href
      && |NavViewOf(nav).menu| == |config| - 1
      && forall i :: 0 <= i < |NavViewOf(nav).menu| ==>
        NavViewOf(nav).menu[i] == LinkOf(if i < HomeIndex(config) then config[i] else config[i + 1])
  {
    var config := EffectiveConfig(nav.config);
    DropAt(config, HomeIndex(config));
  }

  /** Without authored entries the brand links to the default home page and the menu has the other four. */
  lemma DefaultNavView(nav: NavConfig)
    requires nav.config == []
    ensures NavViewOf(nav).brandHref == "/us/en/home" && |NavViewOf(nav).menu| == 4
  {
    DefaultMenu();
  }

  // ---------------------------------------------------------------------------
  // markActiveNav
  // ---------------------------------------------------------------------------

  /** `replace(/\/+$/, '')`: drops every trailing slash. */
  function StripTrailingSlashes(p: string): (r: string)
    ensures |r| <= |p|
    decreases |p|
  {
    if p != [] && p[|p| - 1] == '/' then StripTrailingSlashes(p[..|p| - 1]) else p
  }

  /** What is left is a prefix that does not end in `/`, and only slashes were dropped. */
  lemma {:induction false} StripTrailingSlashesSpec(p: string)
    ensures StripTrailingSlashes(p) <= p
    ensures StripTrailingSlashes(p) == [] || StripTrailingSlashes(p)[|StripTrailingSlashes(p)| - 1] != '/'
    ensures forall i :: |StripTrailingSlashes(p)| <= i < |p| ==> p[i] == '/'
    decreases |p|
  {
    if p != [] && p[|p| - 1] == '/' {
      StripTrailingSlashesSpec(p[..|p| - 1]);
    }
  }

  /** `normalize`: no trailing slash, and `/` for what is left empty. */
  function NormalizePath(p: string): (r: string)
    ensures r != []
  {
    var s := StripTrailingSlashes(p);
    if s == [] then "/" else s
  }

  /** A normalized path is never empty, ends in `/` only when it is `/`, and normalizes to itself. */
  lemma NormalizePathSpec(p: string)
    ensures NormalizePath(p) != []
    ensures NormalizePath(p) == "/" || NormalizePath(p)[|NormalizePath(p)| - 1] != '/'
    ensures NormalizePath(NormalizePath(p)) == NormalizePath(p)
    ensures NormalizePath(p) == "/" <==> forall i :: 0 <= i < |p| ==> p[i] == '/'
  {
    var s := StripTrailingSlashes(p);
    StripTrailingSlashesSpec(p);
    if s == [] {
      assert StripTrailingSlashes("/") == [];
    } else {
      assert p[..|s|] == s;
      if s == "/" {
        assert false;
      }
    }
  }

  /** The link covers the current page: the same path, or a path below it. */
  predicate Covers(linkPath: string, current: string) {
    current == linkPath || StartsWith(current, linkPath + "/")
  }

  /** Link `i` resolves to a path that covers the current page. */
  predicate Candidate(current: string, paths: seq<Option<string>>, i: int)
    requires 0 <= i < |paths|
  {
    paths[i].Some? && Covers(NormalizePath(paths[i].value), current)
  }

  /** How well link path `path` covers the current page: its length when it does, 0 otherwise. */
  function Reach(current: string, path: Option<string>): nat {
    if path.Some? && Covers(NormalizePath(path.value), current) then |NormalizePath(path.value)| else 0
  }

  /**
   * `markActiveNav`: `paths[i]` is the path name of link `i`'s URL (the
   * brand link first, then the menu links), `None` where `new URL` throws.
   * The active link is the first of the longest covering paths; there is
   * none exactly when no link covers the page.
   */
  method MarkActiveNav(currentPath: string, paths: seq<Option<string>>) returns (best: Option<nat>)
    ensures var current := NormalizePath(currentPath);
      best.None? <==> forall i :: 0 <= i < |paths| ==> !Candidate(current, paths, i)
    ensures var current := NormalizePath(currentPath);
      best.Some? ==>
        && best.value < |paths| && Candidate(current, paths, best.value)
        && (forall j :: 0 <= j < |paths| && Candidate(current, paths, j) ==>
              |NormalizePath(paths[j].value)| <= |NormalizePath(paths[best.value].value)|)
        && (forall j :: 0 <= j < best.value && Candidate(current, paths, j) ==>
              |NormalizePath(paths[j].value)| < |NormalizePath(paths[best.value].value)|)
  {
    var current := NormalizePath(currentPath);
    ghost var reach := seq(|paths|, j requires 0 <= j < |paths| => Reach(current, paths[j]));
    best := None;
    var bestLength := 0;
    var i := 0;
    while i < |paths|
      invariant 0 <= i <= |paths|
      invariant forall j :: 0 <= j < i ==> reach[j] <= bestLength
      invariant best.None? <==> bestLength == 0
      invariant best.Some? ==> best.value < i && reach[best.value] == bestLength
      invariant best.Some? ==> forall j :: 0 <= j < best.value ==> reach[j] < bestLength
    {
      assert reach[i] == Reach(current, paths[i]);
      if paths[i].Some? {
        var linkPath := NormalizePath(paths[i].value);
        if Covers(linkPath, current) {
          assert reach[i] == |linkPath| > 0;
          if |linkPath| > bestLength {
            bestLength := |linkPath|;
            best := Some(i);
          }
        } else {
          assert reach[i] == 0;
        }
      } else {
        assert reach[i] == 0;
      }
      i := i + 1;
    }
    forall j | 0 <= j < |paths|
      ensures Candidate(current, paths, j) <==> reach[j] > 0
      ensures Candidate(current, paths, j) ==> reach[j] == |NormalizePath(paths[j].value)|
    {
    }
  }

  // ---------------------------------------------------------------------------
  // Search
  // ---------------------------------------------------------------------------

  const MaxResults := 8

  /** `(item[f] || '')` as a string; a list is not a string and has no `toLowerCase`. */
  function SearchText(item: Item, f: string): Result<string> {
    if f !in item then Ok("")
    else
      match item[f]
      case Str(s) => Ok(s)
      case Strs(_) => Thrown("TypeError: toLowerCase is not a function")
  }

  predicate ListText(item: Item) {
    SearchText(item, "title").Thrown? || SearchText(item, "description").Thrown?
  }

  /** The title and description are strings, and one of them, lower-cased, contains `lower`. */
  predicate Hit(item: Item, lower: string) {
    !ListText(item) &&
    (Contains(Lower(SearchText(item, "title").value), lower) || Contains(Lower(SearchText(item, "description").value), lower))
  }

  /** `index.filter(...)`: throws on the first item with a list-valued title or description. */
  function Hits(index: seq<Item>, lower: string): (r: Result<seq<Item>>)
    ensures r.Thrown? <==> exists i :: 0 <= i < |index| && ListText(index[i])
    ensures r.Ok? ==> IsSubsequence(r.value, index)
    ensures r.Ok? ==> forall x :: x in r.value ==> Hit(x, lower)
    ensures r.Ok? ==> forall x :: x in index && Hit(x, lower) ==> x in r.value
    decreases |index|
  {
    if index == [] then Ok([])
    else
      var init := index[..|index| - 1];
      var last := index[|index| - 1];
      InitLast(index);
      var rest :- Hits(init, lower);
      if ListText(last) then Thrown("TypeError: toLowerCase is not a function")
      else
        SubsequenceSnoc(rest, init, last);
        if Hit(last, lower) then Ok(rest + [last]) else Ok(rest)
  }

  /** The search keeps every hit as often as the index holds it, and nothing else. */
  lemma {:induction false} HitsCounts(index: seq<Item>, lower: string)
    ensures Hits(index, lower).Ok? ==>
      forall x :: multiset(Hits(index, lower).value)[x] == if Hit(x, lower) then multiset(index)[x] else 0
    decreases |index|
  {
    if index != [] && Hits(index, lower).Ok? {
      var init := index[..|index| - 1];
      var last := index[|index| - 1];
      InitLast(index);
      HitsCounts(init, lower);
      CountSnoc(init, last);
      CountSnoc(Hits(init, lower).value, last);
    }
  }

  /** The search for a non-blank term: the first eight hits, in index order. */
  function SearchResults(index: seq<Item>, term: string): Result<seq<Item>> {
    var all :- Hits(index, Lower(Trim(term)));
    Ok(if |all| <= MaxResults then all else all[..MaxResults])
  }

  /**
   * At most eight results, each a hit, in index order; with fewer than
   * eight, every hit of the index is among them. They are the first eight
   * hits, or all of them.
   */
  lemma SearchResultsSpec(index: seq<Item>, term: string)
    ensures SearchResults(index, term).Thrown? <==> exists i :: 0 <= i < |index| && ListText(index[i])
    ensures SearchResults(index, term).Ok? ==>
      var r := SearchResults(index, term).value;
      && |r| <= MaxResults
      && IsSubsequence(r, index)
      && (forall x :: x in r ==> Hit(x, Lower(Trim(term))))
      && (|r| < MaxResults ==> forall x :: x in index && Hit(x, Lower(Trim(term))) ==> x in r)
      && var h := Hits(index, Lower(Trim(term))).value;
         r == h[..if |h| < MaxResults then |h| else MaxResults]
  {
    var h := Hits(index, Lower(Trim(term)));
    if h.Ok? && |h.value| > MaxResults {
      PrefixIsSubsequence(h.value, MaxResults);
      SubsequenceTrans(h.value[..MaxResults], h.value, index);
      forall x | x in h.value[..MaxResults] ensures x in h.value {
      }
    }
  }

  datatype SearchLink = SearchLink(href: string, text: string)

  /** `link.href = item.path; link.textContent = item.title || item.path`. */
  function SearchLinkOf(item: Item): SearchLink {
    var text :=
      if "title" in item && Truthy(item["title"]) then ToJsString(item["title"])
      else if "path" in item then ToJsString(item["path"])
      else "";
    SearchLink(TemplateText(item, "path"), text)
  }

  /** The search index: the response's `data` list, or nothing when the request or the payload fails. */
  function SearchIndex(response: Option<Option<seq<Item>>>): (r: seq<Item>)
    ensures response.Some? && response.value.Some? ==> r == response.value.value
    ensures response.None? || response.value.None? ==> r == []
  {
    if response.Some? && response.value.Some? then response.value.value else []
  }

  /** The results list: one link per match, in order. */
  method ListLinks(matches: seq<Item>) returns (links: seq<SearchLink>)
    ensures |links| == |matches|
    ensures forall i :: 0 <= i < |matches| ==> links[i] == SearchLinkOf(matches[i])
  {
    links := [];
    var i := 0;
    while i < |matches|
      invariant 0 <= i <= |matches|
      invariant |links| == i && forall j :: 0 <= j < i ==> links[j] == SearchLinkOf(matches[j])
    {
      links := links + [SearchLinkOf(matches[i])];
      i := i + 1;
    }
  }

  /** The results panel under the search box. */
  class SearchBox {
    var open: bool
    var links: seq<SearchLink>

    /** The panel is open exactly when it lists something. */
    ghost predicate Valid()
      reads this
    {
      open <==> links != []
    }

    constructor ()
      ensures Valid() && !open && links == []
    {
      open := false;
      links := [];
    }

    /** `clearResults`: also what the close button and a click outside the nav do. */
    method Clear()
      modifies this
      ensures Valid() && !open && links == []
    {
      links := [];
      open := false;
    }

    /**
     * The input handler once its timer fires: a blank term clears; a search
     * without hits clears; otherwise the panel lists the hits and opens. A
     * search that throws changes nothing.
     */
    method OnInput(term: string, index: seq<Item>)
      requires Valid()
      modifies this
      ensures Valid()
      ensures Trim(term) == "" ==> !open && links == []
      ensures Trim(term) != "" && SearchResults(index, term).Thrown? ==>
        open == old(open) && links == old(links)
      ensures Trim(term) != "" && SearchResults(index, term).Ok? ==>
        var r := SearchResults(index, term).value;
        && |links| == |r|
        && (forall i :: 0 <= i < |r| ==> links[i] == SearchLinkOf(r[i]))
        && (open <==> r != [])
    {
      if Trim(term) == "" {
        Clear();
        return;
      }
      var found := SearchResults(index, term);
      if found.Thrown? {
        return;
      }
      var matches := found.value;
      if matches == [] {
        Clear();
        return;
      }
      links := ListLinks(matches);
      open := true;
    }
  }

  // ---------------------------------------------------------------------------
  // The hamburger
  // ---------------------------------------------------------------------------

  /** The nav element's `aria-expanded` attribute. */
  class Nav {
    var ariaExpanded: string

    /** The attribute only ever holds `true` or `false`. */
    ghost predicate Valid()
      reads this
    {
      ariaExpanded == "true" || ariaExpanded == "false"
    }

    /** Expanded on a desktop-wide viewport. */
    constructor (desktop: bool)
      ensures Valid()
      ensures ariaExpanded == if desktop then "true" else "false"
    {
      ariaExpanded := if desktop then "true" else "false";
    }

    /** `toggleMenu`: `true` becomes `false`; anything else becomes `true`. */
    method ToggleMenu()
      modifies this
      ensures Valid()
      ensures old(Valid()) ==> ariaExpanded != old(ariaExpanded)
      ensures ariaExpanded == if old(ariaExpanded) == "true" then "false" else "true"
    {
      var open := ariaExpanded == "true";
      ariaExpanded := if !open then "true" else "false";
    }

    /** The viewport crossing the desktop breakpoint. */
    method MediaChange(desktop: bool)
      modifies this
      ensures Valid()
      ensures ariaExpanded == if desktop then "true" else "false"
    {
      ariaExpanded := if desktop then "true" else "false";
    }
  }
}
