/**
 * `mapFields` and `renderCards` of the content-listing block: each index
 * item is mapped to card fields through the configured field names, and a
 * card is rendered for every item that has a title, a summary or an image.
 */
module ListingRender {
  import opened Common
  import opened IndexItem
  import opened ListingConfig

  /** The card fields `mapFields` returns; a field it cannot find is `""`. */
  datatype Fields = Fields(title: Val, summary: Val, image: Val, path: Val, tag: Val)

  /**
   * `get(fieldKey, fallback)`: the item field the configuration names under
   * `fieldKey`, else the fallback field (no fallback when it is `""`), else `""`.
   */
  function Get(item: Item, cfg: Config, fieldKey: string, fallback: string): (r: Val)
    ensures Cfg(cfg, fieldKey) != "" && Cfg(cfg, fieldKey) in item ==> r == item[Cfg(cfg, fieldKey)]
    ensures !(Cfg(cfg, fieldKey) != "" && Cfg(cfg, fieldKey) in item) && fallback != "" && fallback in item ==>
      r == item[fallback]
    ensures !(Cfg(cfg, fieldKey) != "" && Cfg(cfg, fieldKey) in item) && !(fallback != "" && fallback in item) ==>
      r == Str("")
  {
    var fieldName := Cfg(cfg, fieldKey);
    if fieldName != "" && fieldName in item then item[fieldName]
    else if fallback != "" && fallback in item then item[fallback]
    else Str("")
  }

  function MapFields(item: Item, cfg: Config): Fields {
    Fields(
      Get(item, cfg, "title-field", "title"),
      Get(item, cfg, "summary-field", "description"),
      Get(item, cfg, "image-field", "image"),
      Get(item, cfg, "path-field", "path"),
      Get(item, cfg, "tag-field", ""))
  }

  /**
   * Without field overrides the card reads the index's own `title`,
   * `description`, `image` and `path`, and has no tag.
   */
  lemma MapFieldsDefaults(item: Item, cfg: Config)
    requires forall k :: k in cfg && k in {"title-field", "summary-field", "image-field", "path-field", "tag-field"} ==> cfg[k] == ""
    ensures MapFields(item, cfg).title == if "title" in item then item["title"] else Str("")
    ensures MapFields(item, cfg).summary == if "description" in item then item["description"] else Str("")
    ensures MapFields(item, cfg).image == if "image" in item then item["image"] else Str("")
    ensures MapFields(item, cfg).path == if "path" in item then item["path"] else Str("")
    ensures MapFields(item, cfg).tag == Str("")
  {
  }

  /** A configured field that the item has wins over the fallback, even when empty. */
  lemma MapFieldsOverride(item: Item, cfg: Config, f: string)
    requires Cfg(cfg, "title-field") == f && f != "" && f in item
    ensures MapFields(item, cfg).title == item[f]
  {
  }

  datatype CardImage = CardImage(src: string, alt: string)

  /**
   * A rendered card: `href` is the target of both the image link and the
   * title link; each part is present when its field is truthy.
   */
  datatype Card = Card(
    href: string,
    image: Option<CardImage>,
    tag: Option<string>,
    title: Option<string>,
    summary: Option<string>)

  /** `value || ''` as a string. */
  function TextOr(v: Val, otherwise: string): string {
    if Truthy(v) then ToJsString(v) else otherwise
  }

  function Part(v: Val): Option<string> {
    if Truthy(v) then Some(ToJsString(v)) else None
  }

  /** The card for one item; `None` when title, summary and image are all falsy. */
  function CardOf(item: Item, cfg: Config): (r: Option<Card>)
    ensures r.Some? <==>
      Truthy(MapFields(item, cfg).title) || Truthy(MapFields(item, cfg).summary) || Truthy(MapFields(item, cfg).image)
  {
    var f := MapFields(item, cfg);
    if !Truthy(f.title) && !Truthy(f.summary) && !Truthy(f.image) then None
    else
      var href := TextOr(f.path, "#");
      Some(Card(
        href,
        if Truthy(f.image) then Some(CardImage(ToJsString(f.image), TextOr(f.title, ""))) else None,
        Part(f.tag),
        Part(f.title),
        Part(f.summary)))
  }

  /**
   * Every card shows something (an image, a title or a summary), links
   * somewhere (`#` when the item's path is empty), and its image's alt text is
   * the title it shows.
   */
  lemma CardShape(item: Item, cfg: Config)
    requires CardOf(item, cfg).Some?
    ensures CardOf(item, cfg).value.image.Some? || CardOf(item, cfg).value.title.Some? || CardOf(item, cfg).value.summary.Some?
    ensures MapFields(item, cfg).path.Str? ==> CardOf(item, cfg).value.href != ""
    ensures MapFields(item, cfg).path.Str? ==>
      (CardOf(item, cfg).value.href == "#" <==> MapFields(item, cfg).path.s in {"", "#"})
    ensures CardOf(item, cfg).value.image.Some? ==>
      CardOf(item, cfg).value.image.value.alt == (if CardOf(item, cfg).value.title.Some? then CardOf(item, cfg).value.title.value else "")
  {
  }

  /** The cards for a list of items, in order. */
  function CardsOf(items: seq<Item>, cfg: Config): (r: seq<Card>)
    ensures |r| <= |items|
  {
    if items == [] then []
    else
      var last := CardOf(items[|items| - 1], cfg);
      CardsOf(items[..|items| - 1], cfg) + (if last.Some? then [last.value] else [])
  }

  lemma {:induction false} CardsOfAppend(a: seq<Item>, b: seq<Item>, cfg: Config)
    ensures CardsOf(a + b, cfg) == CardsOf(a, cfg) + CardsOf(b, cfg)
    decreases |b|
  {
    if b == [] {
      assert a + b == a;
    } else {
      var b' := b[..|b| - 1];
      assert (a + b)[..|a + b| - 1] == a + b';
      assert (a + b)[|a + b| - 1] == b[|b| - 1];
      CardsOfAppend(a, b', cfg);
    }
  }

  /** Every card comes from an item, and every item with something to show gets one. */
  lemma {:induction false} CardsOfMembers(items: seq<Item>, cfg: Config)
    ensures forall c :: c in CardsOf(items, cfg) ==> exists x :: x in items && CardOf(x, cfg) == Some(c)
    ensures forall x :: x in items && CardOf(x, cfg).Some? ==> CardOf(x, cfg).value in CardsOf(items, cfg)
    decreases |items|
  {
    if items != [] {
      var init := items[..|items| - 1];
      CardsOfMembers(init, cfg);
      assert items == init + [items[|items| - 1]];
    }
  }

  /** The element the cards are rendered into. */
  class CardsHost {
    var cards: seq<Card>

    constructor ()
      ensures cards == []
    {
      cards := [];
    }

    /** `renderCards`: empties the host, then appends one card per item that has one. */
    method RenderCards(items: seq<Item>, cfg: Config)
      modifies this
      ensures cards == CardsOf(items, cfg)
    {
      cards := [];
      var i := 0;
      while i < |items|
        invariant 0 <= i <= |items|
        invariant cards == CardsOf(items[..i], cfg)
      {
        assert items[..i + 1][..i] == items[..i];
        var card := CardOf(items[i], cfg);
        if card.Some? {
          cards := cards + [card.value];
        }
        i := i + 1;
      }
      assert items[..|items|] == items;
    }
  }
}
