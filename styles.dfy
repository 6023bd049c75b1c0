/**
 * Paragraph styles of the rendered report. The three styles (title,
 * section header, content) depend on the language only through its reading
 * direction and its font: Arabic is laid out right to left, with right
 * alignment and right indents; every other language left to right, with a
 * centred title, left-aligned body and left indents.
 */
module Styles {
  import opened Common
  import opened Config

  /** Paragraph alignment; reportlab encodes these as 0, 1 and 2. */
  datatype Alignment = Left | Center | Right

  function AlignmentCode(a: Alignment): (code: int)
    ensures 0 <= code <= 2
    ensures AlignmentOfCode(code) == Some(a)
  {
    match a
    case Left => 0
    case Center => 1
    case Right => 2
  }

  /** The alignment a reportlab code stands for, if any. */
  function AlignmentOfCode(code: int): Option<Alignment> {
    if code == 0 then Some(Left)
    else if code == 1 then Some(Center)
    else if code == 2 then Some(Right)
    else None
  }

  datatype Font = Helvetica | NotoArabic

  /** The sample style a custom style inherits what it does not set from. */
  datatype BaseStyle = Heading1 | Normal

  /** The layout attributes a style sets; `None` means inherited from the
      base style. Colours and borders are not carried. */
  datatype ParagraphStyle = ParagraphStyle(
    name: string,
    parent: BaseStyle,
    font: Font,
    fontSize: int,
    leading: Option<int>,
    alignment: Alignment,
    leftIndent: Option<int>,
    rightIndent: Option<int>,
    bulletIndent: Option<int>,
    spaceBefore: Option<int>,
    spaceAfter: int)

  datatype Styles = Styles(title: ParagraphStyle, section: ParagraphStyle, content: ParagraphStyle)

  datatype Direction = LeftToRight | RightToLeft

  function DirectionOf(language: string): Direction {
    if IsArabic(language) then RightToLeft else LeftToRight
  }

  /** A body style faces the reading direction: aligned to the side reading
      starts from, indented by `depth` on that side and not on the other. */
  ghost predicate Facing(style: ParagraphStyle, dir: Direction, depth: int) {
    match dir
    case LeftToRight => style.alignment == Left && style.leftIndent == Some(depth) && style.rightIndent == Some(0)
    case RightToLeft => style.alignment == Right && style.rightIndent == Some(depth) && style.leftIndent == Some(0)
  }

  /**
   * The title, section and content styles for a language. The title is
   * right-aligned for Arabic and centred otherwise; section headers and
   * content face the reading direction, content indented twice as deep as
   * headers; all three use the Arabic font exactly when the language is
   * Arabic.
   */
  function GetStyles(language: string): (r: Styles)
    ensures r.title.alignment == (if DirectionOf(language) == RightToLeft then Right else Center)
    ensures Facing(r.section, DirectionOf(language), 10)
    ensures Facing(r.content, DirectionOf(language), 20)
    ensures (r.title.font == NotoArabic) <==> IsArabic(language)
    ensures r.section.font == r.title.font && r.content.font == r.title.font
    ensures r.section.name != r.content.name
    ensures AlignmentCode(r.title.alignment) == (if IsArabic(language) then 2 else 1)
    ensures AlignmentCode(r.section.alignment) == (if IsArabic(language) then 2 else 0)
    ensures AlignmentCode(r.content.alignment) == (if IsArabic(language) then 2 else 0)
  {
    var arabic := language == "ar";
    var baseFont := if arabic then NotoArabic else Helvetica;
    var alignment := if arabic then Right else Center;
    Styles(
      ParagraphStyle("CustomTitle", Heading1, baseFont, 16, None, alignment,
                     None, None, None, None, 20),
      ParagraphStyle("SectionHeader", Normal, baseFont, 14, Some(16),
                     if arabic then Right else Left,
                     Some(if !arabic then 10 else 0), Some(if !arabic then 0 else 10),
                     None, Some(15), 10),
      ParagraphStyle("CustomContent", Normal, baseFont, 11, Some(14),
                     if arabic then Right else Left,
                     Some(if !arabic then 20 else 0), Some(if !arabic then 0 else 20),
                     Some(20), None, 6))
  }

  /** A style reflected left to right: indents swapped, left and right
      alignment exchanged. */
  function Mirror(style: ParagraphStyle): (m: ParagraphStyle)
    ensures m.leftIndent == style.rightIndent && m.rightIndent == style.leftIndent
  {
    style.(leftIndent := style.rightIndent, rightIndent := style.leftIndent,
           alignment := match style.alignment
                        case Left => Right
                        case Right => Left
                        case Center => Center)
  }

  /** The two directions' body styles are mirror images of each other,
      except for the font. */
  lemma StylesMirror(ltr: string, rtl: string)
    requires DirectionOf(ltr) == LeftToRight && DirectionOf(rtl) == RightToLeft
    ensures GetStyles(rtl).section == Mirror(GetStyles(ltr).section).(font := NotoArabic)
    ensures GetStyles(rtl).content == Mirror(GetStyles(ltr).content).(font := NotoArabic)
  {
  }
}
