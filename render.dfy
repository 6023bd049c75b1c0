/**
 * The element plan of the rendered report: the ordered list of flowables
 * handed to the document builder. A title paragraph and a spacer come
 * first; then, item by item, one paragraph per header and one bulleted
 * paragraph plus a small spacer per content item; and, only when the logo
 * file exists, a spacer and the logo at the end. For Arabic every text is
 * passed through the right-to-left shaping function `shape` first.
 */
module Render {
  import opened Common
  import opened Config
  import opened Parser
  import opened Styles

  /** One inch in points. */
  const Inch := 72

  /** The prefix of a content paragraph: the bullet and a space. */
  const BulletPrefix := "• "

  datatype Element =
    | Paragraph(text: string, style: ParagraphStyle)
    | Spacer(width: int, height: int)
    | Logo(width: int, height: int)

  /** The text as drawn: shaped for Arabic, unchanged otherwise. */
  function Display(language: string, shape: string -> string, text: string): string {
    if IsArabic(language) then shape(text) else text
  }

  /** The elements one item contributes. */
  function ItemElements(item: Item, styles: Styles, language: string, shape: string -> string): seq<Element> {
    var text := Display(language, shape, item.text);
    if item.kind == Header then [Paragraph(text, styles.section)]
    else [Paragraph(BulletPrefix + text, styles.content), Spacer(1, 5)]
  }

  /** The elements of all items, in item order. */
  function Body(items: seq<Item>, styles: Styles, language: string, shape: string -> string): seq<Element> {
    if items == [] then []
    else ItemElements(items[0], styles, language, shape) + Body(items[1..], styles, language, shape)
  }

  function TitleBlock(language: string, shape: string -> string): seq<Element>
    requires language in LanguageConfigs
  {
    [Paragraph(Display(language, shape, LanguageConfigs[language].pdfTitle), GetStyles(language).title),
     Spacer(1, 20)]
  }

  function LogoBlock(logoExists: bool): seq<Element> {
    if logoExists then [Spacer(1, 20), Logo(Inch, Inch)] else []
  }

  /** The whole plan handed to the document builder. */
  function DocumentPlan(items: seq<Item>, language: string, shape: string -> string, logoExists: bool): seq<Element>
    requires language in LanguageConfigs
  {
    TitleBlock(language, shape) + Body(items, GetStyles(language), language, shape) + LogoBlock(logoExists)
  }

  /**
   * Builds the element list of the report for the formatted items, the
   * way the document is assembled before it is written: title and spacer,
   * then the items, then the optional logo.
   */
  method CreatePdf(items: seq<Item>, language: string, shape: string -> string, logoExists: bool)
    returns (elements: seq<Element>)
    requires language in LanguageConfigs
    ensures elements == DocumentPlan(items, language, shape, logoExists)
  {
    var styles := GetStyles(language);
    elements := [];
    var titleText := LanguageConfigs[language].pdfTitle;
    if language == "ar" {
      titleText := shape(titleText);
    }
    elements := elements + [Paragraph(titleText, styles.title)];
    elements := elements + [Spacer(1, 20)];
    assert elements == TitleBlock(language, shape);
    elements := AppendItems(elements, items, styles, language, shape);
    if logoExists {
      elements := elements + [Spacer(1, 20)];
      elements := elements + [Logo(Inch, Inch)];
    }
  }

  /** The loop over the items: one append (two for content) per item, in
      item order. */
  method AppendItems(elements0: seq<Element>, items: seq<Item>, styles: Styles, language: string, shape: string -> string)
    returns (elements: seq<Element>)
    ensures elements == elements0 + Body(items, styles, language, shape)
  {
    elements := elements0;
    var i := 0;
    while i < |items|
      invariant 0 <= i <= |items|
      invariant elements == elements0 + Body(items[..i], styles, language, shape)
    {
      var text := items[i].text;
      if language == "ar" {
        text := shape(text);
      }
      if items[i].kind == Header {
        elements := elements + [Paragraph(text, styles.section)];
      } else {
        elements := elements + [Paragraph(BulletPrefix + text, styles.content)];
        elements := elements + [Spacer(1, 5)];
      }
      BodySnoc(items, i, styles, language, shape);
      i := i + 1;
    }
    assert items[..i] == items;
  }

  /** The body over one more item ends with that item's elements. */
  lemma BodySnoc(items: seq<Item>, i: nat, styles: Styles, language: string, shape: string -> string)
    requires i < |items|
    ensures Body(items[..i + 1], styles, language, shape)
         == Body(items[..i], styles, language, shape) + ItemElements(items[i], styles, language, shape)
  {
    BodyAppend(items[..i], [items[i]], styles, language, shape);
    assert items[..i] + [items[i]] == items[..i + 1];
  }

  lemma {:induction false} BodyAppend(a: seq<Item>, b: seq<Item>, styles: Styles, language: string, shape: string -> string)
    ensures Body(a + b, styles, language, shape) == Body(a, styles, language, shape) + Body(b, styles, language, shape)
  {
    if a != [] {
      assert (a + b)[1..] == a[1..] + b;
      BodyAppend(a[1..], b, styles, language, shape);
    } else {
      assert a + b == b;
    }
  }

  // ------------------------------------------------------------ properties

  /** The items as the report shows them: texts shaped for Arabic. */
  function DisplayItems(items: seq<Item>, language: string, shape: string -> string): (r: seq<Item>)
    ensures |r| == |items|
    ensures forall k :: 0 <= k < |items| ==>
              r[k].kind == items[k].kind && r[k].text == Display(language, shape, items[k].text)
  {
    if items == [] then []
    else [items[0].(text := Display(language, shape, items[0].text))] + DisplayItems(items[1..], language, shape)
  }

  /** Reads the items back from a run of body elements, stopping at the
      first element that is not the start of an item. */
  function Recover(es: seq<Element>, styles: Styles): seq<Item> {
    if es == [] then []
    else match es[0]
      case Paragraph(t, st) =>
        if st == styles.section then
          [Item(Header, t)] + Recover(es[1..], styles)
        else if st == styles.content && |es| >= 2 && es[1] == Spacer(1, 5) && BulletPrefix <= t then
          [Item(Content, t[|BulletPrefix|..])] + Recover(es[2..], styles)
        else []
      case _ => []
  }

  /** The plan loses nothing and reorders nothing: reading the items back
      from everything after the title block gives exactly the items, in
      order, with their texts as displayed. */
  lemma PlanKeepsItems(items: seq<Item>, language: string, shape: string -> string, logoExists: bool)
    requires language in LanguageConfigs
    ensures Recover(DocumentPlan(items, language, shape, logoExists)[2..], GetStyles(language))
         == DisplayItems(items, language, shape)
  {
    var plan := DocumentPlan(items, language, shape, logoExists);
    var styles := GetStyles(language);
    assert plan[2..] == Body(items, styles, language, shape) + LogoBlock(logoExists);
    RecoverBody(items, styles, language, shape, LogoBlock(logoExists));
  }

  /** For a left-to-right language the items come back unchanged. */
  lemma PlanKeepsItemsLtr(items: seq<Item>, language: string, shape: string -> string, logoExists: bool)
    requires language in LanguageConfigs && !IsArabic(language)
    ensures Recover(DocumentPlan(items, language, shape, logoExists)[2..], GetStyles(language)) == items
  {
    PlanKeepsItems(items, language, shape, logoExists);
    DisplayUnshaped(items, language, shape);
  }

  lemma {:induction false} DisplayUnshaped(items: seq<Item>, language: string, shape: string -> string)
    requires !IsArabic(language)
    ensures DisplayItems(items, language, shape) == items
  {
    if items != [] {
      DisplayUnshaped(items[1..], language, shape);
    }
  }

  lemma {:induction false} RecoverBody(items: seq<Item>, styles: Styles, language: string, shape: string -> string, tail: seq<Element>)
    requires styles.section != styles.content
    requires tail == [] || !tail[0].Paragraph?
    ensures Recover(Body(items, styles, language, shape) + tail, styles) == DisplayItems(items, language, shape)
  {
    if items == [] {
      assert Body(items, styles, language, shape) + tail == tail;
    } else {
      var rest := Body(items[1..], styles, language, shape) + tail;
      var text := Display(language, shape, items[0].text);
      RecoverBody(items[1..], styles, language, shape, tail);
      assert Body(items, styles, language, shape) + tail
          == ItemElements(items[0], styles, language, shape) + rest;
      if items[0].kind == Header {
        RecoverHeader(text, rest, styles);
      } else {
        RecoverContent(text, rest, styles);
      }
    }
  }

  lemma RecoverHeader(text: string, rest: seq<Element>, styles: Styles)
    ensures Recover([Paragraph(text, styles.section)] + rest, styles) == [Item(Header, text)] + Recover(rest, styles)
  {
    assert ([Paragraph(text, styles.section)] + rest)[1..] == rest;
  }

  lemma RecoverContent(text: string, rest: seq<Element>, styles: Styles)
    requires styles.section != styles.content
    ensures Recover([Paragraph(BulletPrefix + text, styles.content), Spacer(1, 5)] + rest, styles)
         == [Item(Content, text)] + Recover(rest, styles)
  {
    var es := [Paragraph(BulletPrefix + text, styles.content), Spacer(1, 5)] + rest;
    assert es[2..] == rest;
    assert (BulletPrefix + text)[|BulletPrefix|..] == text;
  }

  /** The number of content items. */
  function ContentCount(items: seq<Item>): nat {
    if items == [] then 0
    else (if items[0].kind == Content then 1 else 0) + ContentCount(items[1..])
  }

  /** Two elements of title, one per header, two per content item, and two
      more exactly when the logo exists. */
  lemma PlanLength(items: seq<Item>, language: string, shape: string -> string, logoExists: bool)
    requires language in LanguageConfigs
    ensures |DocumentPlan(items, language, shape, logoExists)|
         == 2 + |items| + ContentCount(items) + (if logoExists then 2 else 0)
  {
    BodyLength(items, GetStyles(language), language, shape);
  }

  lemma {:induction false} BodyLength(items: seq<Item>, styles: Styles, language: string, shape: string -> string)
    ensures |Body(items, styles, language, shape)| == |items| + ContentCount(items)
  {
    if items != [] {
      BodyLength(items[1..], styles, language, shape);
    }
  }

  /** A body never holds the logo. */
  lemma {:induction false} BodyHasNoLogo(items: seq<Item>, styles: Styles, language: string, shape: string -> string)
    ensures forall k :: 0 <= k < |Body(items, styles, language, shape)| ==> !Body(items, styles, language, shape)[k].Logo?
  {
    if items != [] {
      BodyHasNoLogo(items[1..], styles, language, shape);
      var es := Body(items, styles, language, shape);
      var head := ItemElements(items[0], styles, language, shape);
      forall k | 0 <= k < |es| ensures !es[k].Logo? {
        if k >= |head| {
          assert es[k] == Body(items[1..], styles, language, shape)[k - |head|];
        }
      }
    }
  }

  /** The logo appears in the plan exactly when the logo file exists, and
      then as the last element. */
  lemma LogoIffPresent(items: seq<Item>, language: string, shape: string -> string, logoExists: bool)
    requires language in LanguageConfigs
    ensures var plan := DocumentPlan(items, language, shape, logoExists);
      && ((exists k :: 0 <= k < |plan| && plan[k].Logo?) <==> logoExists)
      && (logoExists ==> plan[|plan| - 1] == Logo(Inch, Inch))
  {
    var plan := DocumentPlan(items, language, shape, logoExists);
    var title := TitleBlock(language, shape);
    var body := Body(items, GetStyles(language), language, shape);
    BodyHasNoLogo(items, GetStyles(language), language, shape);
    if !logoExists {
      forall k | 0 <= k < |plan| ensures !plan[k].Logo? {
        if k >= |title| {
          assert plan[k] == body[k - |title|];
        }
      }
    } else {
      assert plan[|plan| - 1] == Logo(Inch, Inch);
    }
  }
}
