/**
 * The hero block (blocks/hero/hero.js): every data row becomes a slide
 * (background picture, title, subtitle, call-to-action); with more than one
 * slide a slider with arrows and dots moves the single active slide around,
 * wrapping at both ends.
 */
module Hero {
  import opened Common
  import opened JsString
  import opened JsNumber
  import opened BlockUtils

  // ---------------------------------------------------------------------------
  // Rows and slides
  // ---------------------------------------------------------------------------

  /** Row 0 is a header when cell 0 reads `image` and cell 1 `title`, `eyebrow` or `subtitle`. */
  predicate LooksLikeHeader(rows: seq<Row>) {
    rows != [] &&
    Lower(GetCellText(Some(rows[0]), 0)) == "image" &&
    var second := Lower(GetCellText(Some(rows[0]), 1));
    second == "title" || second == "eyebrow" || second == "subtitle"
  }

  /** `getDataRows`: the block's rows without such a header row. */
  function HeroDataRows(block: Option<Block>): (r: seq<Row>)
    ensures LooksLikeHeader(BlockRows(block)) ==> r == BlockRows(block)[1..]
    ensures !LooksLikeHeader(BlockRows(block)) ==> r == BlockRows(block)
  {
    var rows := BlockRows(block);
    if LooksLikeHeader(rows) then rows[1..] else rows
  }

  /** `cell.querySelector('a[href]')`: the first anchor that has an `href`. */
  function FirstLink(anchors: seq<Anchor>): (r: Option<Anchor>)
    ensures r.Some? ==> r.value in anchors && r.value.href != ""
    ensures r.None? <==> forall a :: a in anchors ==> a.href == ""
    decreases |anchors|
  {
    if anchors == [] then None
    else if anchors[0].href != "" then Some(anchors[0])
    else FirstLink(anchors[1..])
  }

  /** The CTA target: the link in cell 4 when it has one, else that cell's trimmed text; `""` without cell 4. */
  function CtaHref(row: Row): (href: string)
    ensures |row| <= 4 ==> href == ""
    ensures |row| > 4 && FirstLink(row[4].anchors).Some? ==> href == FirstLink(row[4].anchors).value.href && href != ""
    ensures |row| > 4 && FirstLink(row[4].anchors).None? ==> href == Trim(row[4].text)
  {
    if |row| <= 4 then ""
    else
      var link := FirstLink(row[4].anchors);
      if link.Some? then link.value.href else Trim(row[4].text)
  }

  /** The call-to-action button: labelled with the CTA text and pointing at its target. */
  function CtaButton(text: string, href: string): (r: ElView)
    ensures r.tag == "a" && r.text == text && r.href == Some(href)
  {
    ElView("a", "button primary hero__cta", text, Some(href))
  }

  /** The button as the code builds it: `el` receives the options object `{ href, text }` as its text. */
  function CtaButtonAsWritten(text: string, href: string): ElView {
    El("a", "button primary hero__cta", Options(href, text))
  }

  /**
   * For every CTA the button as written reads "[object Object]" and points
   * nowhere; the corrected button carries the label and the target.
   */
  lemma CtaButtonAsWrittenLosesLink(text: string, href: string)
    requires text != "" && href != ""
    ensures CtaButtonAsWritten(text, href).text == "[object Object]" && CtaButtonAsWritten(text, href).href.None?
    ensures CtaButton(text, href).text == text && CtaButton(text, href).href == Some(href)
    ensures CtaButtonAsWritten("Explore", "/adventures") != CtaButton("Explore", "/adventures")
  {
  }

  datatype Slide = Slide(
    active: bool,
    picture: Option<Image>,
    title: Option<string>,
    subtitle: Option<string>,
    cta: Option<ElView>)

  /** `buildSlide`. */
  function SlideOf(row: Row, isActive: bool): Slide {
    var title := GetCellText(Some(row), 1);
    var subtitle := GetCellText(Some(row), 2);
    var ctaText := GetCellText(Some(row), 3);
    var href := CtaHref(row);
    Slide(
      isActive,
      if row != [] then row[0].image else None,
      if title != "" then Some(title) else None,
      if subtitle != "" then Some(subtitle) else None,
      if ctaText != "" && href != "" then Some(CtaButton(ctaText, href)) else None)
  }

  /** Each part of a slide is present exactly when its cell gives something. */
  lemma SlideOfSpec(row: Row, isActive: bool)
    ensures SlideOf(row, isActive).active == isActive
    ensures SlideOf(row, isActive).picture.Some? <==> row != [] && row[0].image.Some?
    ensures SlideOf(row, isActive).picture.Some? ==> SlideOf(row, isActive).picture == row[0].image
    ensures SlideOf(row, isActive).title.Some? <==> GetCellText(Some(row), 1) != ""
    ensures SlideOf(row, isActive).title.Some? ==> SlideOf(row, isActive).title.value == GetCellText(Some(row), 1)
    ensures SlideOf(row, isActive).subtitle.Some? <==> GetCellText(Some(row), 2) != ""
    ensures SlideOf(row, isActive).subtitle.Some? ==> SlideOf(row, isActive).subtitle.value == GetCellText(Some(row), 2)
    ensures SlideOf(row, isActive).cta.Some? <==> GetCellText(Some(row), 3) != "" && CtaHref(row) != ""
    ensures SlideOf(row, isActive).cta.Some? ==>
      SlideOf(row, isActive).cta.value == CtaButton(GetCellText(Some(row), 3), CtaHref(row))
  {
  }

  /** The slides of the data rows; only the first starts active. */
  function SlidesOf(rows: seq<Row>): (r: seq<Slide>)
    ensures |r| == |rows|
    ensures forall i :: 0 <= i < |r| ==> r[i] == SlideOf(rows[i], i == 0)
  {
    seq(|rows|, i requires 0 <= i < |rows| => SlideOf(rows[i], i == 0))
  }

  /** Exactly one slide starts active when there is any: the first. */
  lemma InitiallyOneActive(rows: seq<Row>)
    requires rows != []
    ensures SlidesOf(rows)[0].active
    ensures forall i :: 0 <= i < |rows| && SlidesOf(rows)[i].active ==> i == 0
  {
  }

  // ---------------------------------------------------------------------------
  // The slider
  // ---------------------------------------------------------------------------

  /** `wireSlider`'s state: the current index and each slide's and dot's state. */
  class Slider {
    const total: nat
    var current: int
    var slideActive: seq<bool>
    /** A slide's `aria-hidden`, absent until `setActive` first runs. */
    var ariaHidden: seq<Option<bool>>
    var dotActive: seq<bool>

    /** The slider exists only with more than one slide; one entry per slide. */
    predicate Shape()
      reads this
    {
      total > 1 && |slideActive| == total && |ariaHidden| == total && |dotActive| == total
    }

    /** Exactly the current slide and its dot are active, and only that slide is not hidden. */
    predicate Valid()
      reads this
    {
      && Shape()
      && 0 <= current < total
      && (forall i :: 0 <= i < total ==> (slideActive[i] <==> i == current))
      && (forall i :: 0 <= i < total ==> (dotActive[i] <==> i == current))
      && (forall i :: 0 <= i < total && ariaHidden[i].Some? ==> (ariaHidden[i].value <==> i != current))
    }

    /** The state `wireSlider` starts from: slide 0 and dot 0 active. */
    constructor(total: nat)
      requires total > 1
      ensures Valid() && this.total == total && current == 0
      ensures forall i :: 0 <= i < total ==> ariaHidden[i].None?
    {
      this.total := total;
      current := 0;
      slideActive := seq(total, i => i == 0);
      ariaHidden := seq(total, i => None);
      dotActive := seq(total, i => i == 0);
    }

    /**
     * `setActive(index)`: `current` becomes `(index + total) % total` with
     * JavaScript's remainder, and the two loops mark exactly that slide and
     * dot. For every index from `-total` on the slider stays valid.
     */
    method SetActive(index: int)
      requires Shape()
      modifies this
      ensures Shape() && current == Remainder(index + total, total)
      ensures forall i :: 0 <= i < total ==> (slideActive[i] <==> i == current)
      ensures forall i :: 0 <= i < total ==> ariaHidden[i] == Some(i != current)
      ensures forall i :: 0 <= i < total ==> (dotActive[i] <==> i == current)
      ensures index + total >= 0 ==> Valid()
    {
      current := Remainder(index + total, total);
      var i := 0;
      while i < total
        invariant 0 <= i <= total && Shape()
        invariant current == Remainder(index + total, total)
        invariant forall k :: 0 <= k < i ==> (slideActive[k] <==> k == current) && ariaHidden[k] == Some(k != current)
      {
        slideActive := slideActive[i := i == current];
        ariaHidden := ariaHidden[i := Some(i != current)];
        i := i + 1;
      }
      var j := 0;
      while j < total
        invariant 0 <= j <= total && Shape()
        invariant current == Remainder(index + total, total)
        invariant forall k :: 0 <= k < total ==> (slideActive[k] <==> k == current) && ariaHidden[k] == Some(k != current)
        invariant forall k :: 0 <= k < j ==> (dotActive[k] <==> k == current)
      {
        dotActive := dotActive[j := j == current];
        j := j + 1;
      }
      if index + total >= 0 {
        WrapSpec(index, total);
      }
    }

    /** The previous arrow: back one slide, from the first to the last. */
    method Prev()
      requires Valid()
      modifies this
      ensures Valid()
      ensures current == if old(current) == 0 then total - 1 else old(current) - 1
    {
      WrapSpec(current - 1, total);
      SetActive(current - 1);
    }

    /** The next arrow: on one slide, from the last to the first. */
    method Next()
      requires Valid()
      modifies this
      ensures Valid()
      ensures current == if old(current) == total - 1 then 0 else old(current) + 1
    {
      WrapSpec(current + 1, total);
      SetActive(current + 1);
    }

    /** Dot `index`: straight to that slide. */
    method GoTo(index: nat)
      requires Valid() && index < total
      modifies this
      ensures Valid() && current == index
    {
      WrapSpec(index, total);
      SetActive(index);
    }
  }

  // ---------------------------------------------------------------------------
  // decorate
  // ---------------------------------------------------------------------------

  /** The `forEach` over the data rows. */
  method BuildSlides(rows: seq<Row>) returns (slides: seq<Slide>)
    ensures slides == SlidesOf(rows)
  {
    slides := [];
    var i := 0;
    while i < |rows|
      invariant 0 <= i <= |rows| && |slides| == i
      invariant forall k :: 0 <= k < i ==> slides[k] == SlideOf(rows[k], k == 0)
    {
      slides := slides + [SlideOf(rows[i], i == 0)];
      i := i + 1;
    }
  }

  /**
   * `decorate`: no data rows leaves the block as it is (no slides); otherwise
   * the slides replace it, and a slider starting at slide 0 is wired exactly
   * when there is more than one.
   */
  method Decorate(block: Option<Block>) returns (slides: seq<Slide>, slider: Slider?)
    ensures slides == SlidesOf(HeroDataRows(block))
    ensures slider != null <==> |slides| > 1
    ensures slider != null ==> fresh(slider) && slider.Valid() && slider.total == |slides| && slider.current == 0
  {
    slides := BuildSlides(HeroDataRows(block));
    if |slides| <= 1 {
      return slides, null;
    }
    slider := new Slider(|slides|);
  }
}
