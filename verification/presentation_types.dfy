/**
 The document model: slides, brand settings, presentations and slide templates.

 Timestamps (`Date` values) are carried as integers (milliseconds since the
 epoch); ids are plain strings.
 */
module PresentationTypes {
  import opened JsStrings

  /** The closed set of slide layouts. */
  datatype SlideType = Title | Content | TwoColumn | ImageFocus | Blank

  /** The string tag each layout has in the document. */
  function TypeName(t: SlideType): string {
    match t
    case Title => "title"
    case Content => "content"
    case TwoColumn => "two-column"
    case ImageFocus => "image-focus"
    case Blank => "blank"
  }

  /** The five tags are pairwise distinct, so a tag names one layout. */
  lemma TypeNameInjective(a: SlideType, b: SlideType)
    ensures TypeName(a) == TypeName(b) <==> a == b
  {
    if a != b {
      assert TypeName(a) != TypeName(b) by {
        assert TypeName(a)[0] != TypeName(b)[0] || |TypeName(a)| != |TypeName(b)|;
      }
    }
  }

  /** The in-canvas content of a slide: seven independently optional text
      fields, none of them tied to the slide's type. */
  datatype SlideContent = SlideContent(
    title: Option<string>,
    subtitle: Option<string>,
    body: Option<string>,
    leftColumn: Option<string>,
    rightColumn: Option<string>,
    imageUrl: Option<string>,
    imageAlt: Option<string>)

  const EmptyContent := SlideContent(None, None, None, None, None, None, None)

  /** The seven content fields, as the editor names them in computed keys. */
  datatype ContentKey =
    | TitleKey | SubtitleKey | BodyKey | LeftColumnKey | RightColumnKey | ImageUrlKey | ImageAltKey

  /** `content[key]`. */
  function Get(c: SlideContent, k: ContentKey): Option<string> {
    match k
    case TitleKey => c.title
    case SubtitleKey => c.subtitle
    case BodyKey => c.body
    case LeftColumnKey => c.leftColumn
    case RightColumnKey => c.rightColumn
    case ImageUrlKey => c.imageUrl
    case ImageAltKey => c.imageAlt
  }

  /** One slide. `title` is the display label shown in the navigator, not the
      in-canvas heading; `order` is meant to equal the slide's index. */
  datatype Slide = Slide(
    id: string,
    slideType: SlideType,
    title: string,
    content: SlideContent,
    background: Option<string>,
    order: int)

  datatype LogoPosition = TopLeft | TopRight | BottomLeft | BottomRight | Center

  datatype BrandSettings = BrandSettings(
    primaryColor: string,
    secondaryColor: string,
    accentColor: string,
    fontFamily: string,
    logoUrl: Option<string>,
    logoPosition: LogoPosition)

  datatype Presentation = Presentation(
    id: string,
    title: string,
    description: Option<string>,
    slides: seq<Slide>,
    brandSettings: BrandSettings,
    createdAt: int,
    updatedAt: int)

  datatype SlideTemplate = SlideTemplate(
    id: string,
    name: string,
    slideType: SlideType,
    preview: string,
    description: string)

  /** Every slide's `order` equals its position in the sequence. */
  predicate OrdersMatchIndex(slides: seq<Slide>) {
    forall i :: 0 <= i < |slides| ==> slides[i].order == i
  }

  /** No two slides share an id. The editor does not enforce this (ids are
      derived from the clock); it is what fresh ids give. */
  predicate UniqueIds(slides: seq<Slide>) {
    forall i, j :: 0 <= i < j < |slides| ==> slides[i].id != slides[j].id
  }

  predicate HasId(slides: seq<Slide>, id: string) {
    exists i :: 0 <= i < |slides| && slides[i].id == id
  }
}
