/**
 The PowerPoint export: which regions each slide produces, the slide
 background, the deck properties and the file name.

 The presentation library is abstracted away: a slide is the list of regions
 the layout routine would add, in call order, plus its background fill.
 Whether embedding an image succeeds is an oracle boolean. Geometry is in
 thousandths of an inch on the 10 x 5.625 inch canvas; font sizes are points.
 */
module PptExport {
  import opened JsStrings
  import opened PresentationTypes

  // ---------------------------------------------------------------------------
  // Colours

  /** `hex.replace('#', '')`: a string pattern, so only the first '#' goes. */
  function HexToPptColor(hex: string): (r: string)
    ensures '#' !in hex ==> r == hex
    ensures '#' in hex ==> |r| == |hex| - 1
  {
    RemoveFirst(hex, '#')
  }

  /** The conversion drops one '#' at most and keeps every other character. */
  lemma HexToPptColorDropsOneHash(hex: string)
    ensures multiset(HexToPptColor(hex)) == multiset(hex) - multiset{'#'}
  {
    RemoveFirstDropsOne(hex, '#');
  }

  /** A colour written with a leading '#' comes back as its digits, whatever
      follows; a second '#' survives. */
  lemma HexToPptColorStripsLeadingHash(digits: string)
    ensures HexToPptColor("#" + digits) == digits
  {
    assert IndexOf("#" + digits, '#') == 0;
  }

  /** Only the first '#' is removed. */
  lemma HexToPptColorKeepsSecondHash()
    ensures HexToPptColor("##") == "#"
  {
    var hash := "#";
    assert "##" == ['#'] + hash;
    HexToPptColorStripsLeadingHash(hash);
  }

  // ---------------------------------------------------------------------------
  // Regions

  datatype Box = Box(x: int, y: int, w: int, h: int)

  datatype Border = Border(pt: int, color: string)

  /** Text options; `centered` is `align: 'center'`, `middle` is
      `valign: 'middle'`. */
  datatype TextStyle = TextStyle(
    fontSize: int,
    fontFace: string,
    color: string,
    bold: bool,
    centered: bool,
    middle: bool,
    border: Option<Border>)

  /** One call on the library's slide object. */
  datatype Region =
    | TextRegion(text: string, box: Box, style: TextStyle)
    | BulletRegion(items: seq<string>, box: Box, style: TextStyle)
    | ImageRegion(path: string, box: Box)

  const CanvasWidth := 10000
  const CanvasHeight := 5625

  const TitleBox := Box(500, 2500, 9000, 1500)
  const SubtitleBox := Box(500, 4500, 9000, 1000)
  const HeadingBox := Box(500, 500, 9000, 1000)
  const BodyBox := Box(500, 2000, 9000, 4000)
  const LeftColumnBox := Box(500, 2000, 4250, 4000)
  const RightColumnBox := Box(5250, 2000, 4250, 4000)
  const ImageBox := Box(2000, 2000, 6000, 4000)

  /** `brandSettings.fontFamily || 'Arial'`. */
  function FontFace(brand: BrandSettings): string {
    StrOr(brand.fontFamily, "Arial")
  }

  /** Primary colour (or black) for headings. */
  function HeadingColor(brand: BrandSettings): string {
    HexToPptColor(StrOr(brand.primaryColor, "#000000"))
  }

  /** Secondary colour (or dark grey) for body text and columns. */
  function BodyColor(brand: BrandSettings): string {
    HexToPptColor(StrOr(brand.secondaryColor, "#333333"))
  }

  function BodyStyle(brand: BrandSettings): TextStyle {
    TextStyle(18, FontFace(brand), BodyColor(brand), false, false, false, None)
  }

  /** The 32pt bold heading the non-title layouts share. */
  function Heading(text: string, brand: BrandSettings): Region {
    TextRegion(text, HeadingBox, TextStyle(32, FontFace(brand), HeadingColor(brand), true, false, false, None))
  }

  /** The placeholder's text and border colours, `hexToPptColor('#999999')`
      and `hexToPptColor('#CCCCCC')` (see the two lemmas below). */
  const PlaceholderTextColor: string := "999999"
  const PlaceholderBorderColor: string := "CCCCCC"

  lemma PlaceholderTextColorIsConverted()
    ensures HexToPptColor("#999999") == PlaceholderTextColor
  {
    assert "#999999" == ['#'] + PlaceholderTextColor;
    HexToPptColorStripsLeadingHash(PlaceholderTextColor);
  }

  lemma PlaceholderBorderColorIsConverted()
    ensures HexToPptColor("#CCCCCC") == PlaceholderBorderColor
  {
    assert "#CCCCCC" == ['#'] + PlaceholderBorderColor;
    HexToPptColorStripsLeadingHash(PlaceholderBorderColor);
  }

  /** The bordered grey box standing in for an image. */
  function Placeholder(text: string, brand: BrandSettings): Region {
    TextRegion(text, ImageBox,
      TextStyle(16, FontFace(brand), PlaceholderTextColor, false, true, true,
        Some(Border(1, PlaceholderBorderColor))))
  }

  /** The heading, when the slide's content title is truthy. */
  function OptionalHeading(slide: Slide, brand: BrandSettings): seq<Region> {
    if Truthy(slide.content.title) then [Heading(slide.content.title.value, brand)] else []
  }

  // ---------------------------------------------------------------------------
  // Layout routines

  /** `createTitleSlide`. */
  function TitleRegions(slide: Slide, brand: BrandSettings): seq<Region> {
    var c := slide.content;
    (if Truthy(c.title) then
       [TextRegion(c.title.value, TitleBox,
          TextStyle(44, FontFace(brand), HeadingColor(brand), true, true, false, None))]
     else [])
    + (if Truthy(c.subtitle) then
         [TextRegion(c.subtitle.value, SubtitleBox,
            TextStyle(24, FontFace(brand), HexToPptColor(StrOr(brand.secondaryColor, "#666666")),
              false, true, false, None))]
       else [])
  }

  /** `filter(line => line.trim())`: the segments that are not blank, in
      order. A trimmed line is truthy exactly when the line is not blank, by
      the contract of `Trim`. */
  function NonBlankSegments(parts: seq<string>): (r: seq<string>)
    ensures |r| <= |parts|
  {
    if |parts| == 0 then []
    else
      var rest := NonBlankSegments(parts[1..]);
      if !IsBlank(parts[0]) then [parts[0]] + rest else rest
  }

  /** Every kept segment is a non-blank segment of the input. */
  lemma {:induction false} NonBlankSegmentsSound(parts: seq<string>)
    ensures forall k :: 0 <= k < |NonBlankSegments(parts)| ==>
      !IsBlank(NonBlankSegments(parts)[k]) && NonBlankSegments(parts)[k] in parts
    decreases |parts|
  {
    if |parts| > 0 {
      var tail := parts[1..];
      var rest := NonBlankSegments(tail);
      NonBlankSegmentsSound(tail);
      var r := NonBlankSegments(parts);
      if |Trim(parts[0])| > 0 {
        assert !IsBlank(parts[0]);
        assert r == [parts[0]] + rest;
        forall k | 1 <= k < |r| ensures !IsBlank(r[k]) && r[k] in parts {
          assert r[k] == rest[k - 1] && rest[k - 1] in tail;
        }
      } else {
        assert r == rest;
        forall k | 0 <= k < |r| ensures r[k] in parts {
          assert rest[k] in tail;
        }
      }
    }
  }

  /** Every non-blank segment of the input is kept. */
  lemma {:induction false} NonBlankSegmentsComplete(parts: seq<string>)
    ensures forall x :: x in parts && !IsBlank(x) ==> x in NonBlankSegments(parts)
    decreases |parts|
  {
    if |parts| > 0 {
      var tail := parts[1..];
      NonBlankSegmentsComplete(tail);
      forall x | x in parts && !IsBlank(x) ensures x in NonBlankSegments(parts) {
        if x == parts[0] {
          assert |Trim(parts[0])| > 0;
        } else {
          assert x in tail;
        }
      }
    }
  }

  /** The positions from `i` on that hold a non-blank segment, in increasing
      order: an independent description of what the filter keeps. */
  function NonBlankIndices(parts: seq<string>, i: nat): (ix: seq<nat>)
    requires i <= |parts|
    ensures forall k :: 0 <= k < |ix| ==> i <= ix[k] < |parts| && !IsBlank(parts[ix[k]])
    ensures forall k, l :: 0 <= k < l < |ix| ==> ix[k] < ix[l]
    ensures forall j :: i <= j < |parts| && !IsBlank(parts[j]) ==> j in ix
    decreases |parts| - i
  {
    if i == |parts| then []
    else
      var rest := NonBlankIndices(parts, i + 1);
      if !IsBlank(parts[i]) then [i] + rest else rest
  }

  /** The filter keeps exactly the non-blank segments, in their original
      order and with their multiplicity. */
  lemma NonBlankSegmentsSelect(parts: seq<string>)
    ensures var r := NonBlankSegments(parts); var ix := NonBlankIndices(parts, 0);
      |r| == |ix| && forall k :: 0 <= k < |r| ==> r[k] == parts[ix[k]]
  {
    assert parts[0..] == parts;
    NonBlankSegmentsSelectFrom(parts, 0);
  }

  lemma {:induction false} NonBlankSegmentsSelectFrom(parts: seq<string>, i: nat)
    requires i <= |parts|
    ensures var r := NonBlankSegments(parts[i..]); var ix := NonBlankIndices(parts, i);
      |r| == |ix| && forall k :: 0 <= k < |r| ==> r[k] == parts[ix[k]]
    decreases |parts| - i
  {
    if i < |parts| {
      NonBlankSegmentsSelectFrom(parts, i + 1);
      NonBlankSegmentsUnfold(parts, i);
      var rest := NonBlankSegments(parts[i + 1..]);
      var r := NonBlankSegments(parts[i..]);
      var ix := NonBlankIndices(parts, i);
      var rix := NonBlankIndices(parts, i + 1);
      if !IsBlank(parts[i]) {
        assert r == [parts[i]] + rest;
        assert ix == [i] + rix;
        SelectCons(parts, i, rest, rix);
      } else {
        assert r == rest;
        assert ix == rix;
      }
    }
  }

  /** Putting segment `i` in front of a selection keeps it a selection. */
  lemma SelectCons(parts: seq<string>, i: nat, rest: seq<string>, rix: seq<nat>)
    requires i < |parts| && |rest| == |rix|
    requires forall k :: 0 <= k < |rix| ==> rix[k] < |parts| && rest[k] == parts[rix[k]]
    ensures var r := [parts[i]] + rest; var ix := [i] + rix;
      |r| == |ix| && forall k :: 0 <= k < |r| ==> ix[k] < |parts| && r[k] == parts[ix[k]]
  {
    var r := [parts[i]] + rest;
    var ix := [i] + rix;
    forall k | 1 <= k < |r| ensures ix[k] < |parts| && r[k] == parts[ix[k]] {
      assert r[k] == rest[k - 1] && ix[k] == rix[k - 1];
    }
  }

  /** One step of the filter on the suffix from `i`. */
  lemma NonBlankSegmentsUnfold(parts: seq<string>, i: nat)
    requires i < |parts|
    ensures NonBlankSegments(parts[i..]) ==
      (if !IsBlank(parts[i]) then [parts[i]] else []) + NonBlankSegments(parts[i + 1..])
  {
    var suffix := parts[i..];
    assert suffix[1..] == parts[i + 1..];
    assert suffix[0] == parts[i];
    if IsBlank(parts[i]) {
      assert |Trim(suffix[0])| == 0;
    } else {
      assert |Trim(suffix[0])| > 0;
    }
  }

  /** `lines.map(line => line.trim())`. */
  function TrimAll(lines: seq<string>): (r: seq<string>)
    ensures |r| == |lines|
    ensures forall k :: 0 <= k < |r| ==> r[k] == Trim(lines[k])
    ensures forall k :: 0 <= k < |r| ==> IsInfix(r[k], lines[k])
    ensures forall k :: 0 <= k < |r| && !IsBlank(lines[k]) ==>
      |r[k]| > 0 && !IsWhitespace(r[k][0]) && !IsWhitespace(r[k][|r[k]| - 1])
    ensures forall k :: 0 <= k < |r| && !HasSeparator(lines[k]) ==> !HasSeparator(r[k])
  {
    TrimAllPieces(lines);
    seq(|lines|, k requires 0 <= k < |lines| => Trim(lines[k]))
  }

  /** Each trimmed line is a piece of its line, so it has no separator when
      the line has none. */
  lemma TrimAllPieces(lines: seq<string>)
    ensures forall k :: 0 <= k < |lines| ==> IsInfix(Trim(lines[k]), lines[k])
    ensures forall k :: 0 <= k < |lines| && !HasSeparator(lines[k]) ==> !HasSeparator(Trim(lines[k]))
  {
    forall k | 0 <= k < |lines|
      ensures IsInfix(Trim(lines[k]), lines[k])
      ensures !HasSeparator(lines[k]) ==> !HasSeparator(Trim(lines[k]))
    {
      TrimIsInfix(lines[k]);
      if !HasSeparator(lines[k]) {
        InfixKeepsNoSeparator(Trim(lines[k]), lines[k]);
      }
    }
  }

  /** The body part of `createContentSlide`: several non-blank segments become
      a bullet list of trimmed items; otherwise the body is one paragraph,
      untrimmed. */
  function BodyRegions(body: string, brand: BrandSettings): seq<Region> {
    var lines := NonBlankSegments(SplitOnSeparator(body));
    if |lines| > 1 then [BulletRegion(TrimAll(lines), BodyBox, BodyStyle(brand))]
    else [TextRegion(body, BodyBox, BodyStyle(brand))]
  }

  /** `createContentSlide`. */
  function ContentRegions(slide: Slide, brand: BrandSettings): seq<Region> {
    OptionalHeading(slide, brand)
    + (if Truthy(slide.content.body) then BodyRegions(slide.content.body.value, brand) else [])
  }

  /** A column: the text in the body style, when the field is truthy. */
  function Column(o: Option<string>, box: Box, brand: BrandSettings): seq<Region> {
    if Truthy(o) then [TextRegion(o.value, box, BodyStyle(brand))] else []
  }

  /** `createTwoColumnSlide`. */
  function TwoColumnRegions(slide: Slide, brand: BrandSettings): seq<Region> {
    var c := slide.content;
    OptionalHeading(slide, brand)
    + Column(c.leftColumn, LeftColumnBox, brand)
    + Column(c.rightColumn, RightColumnBox, brand)
  }

  /** `createImageFocusSlide`; `embedOk` says whether `addImage` returns
      normally or throws. */
  function ImageFocusRegions(slide: Slide, brand: BrandSettings, embedOk: bool): seq<Region> {
    var c := slide.content;
    OptionalHeading(slide, brand)
    + (if Truthy(c.imageUrl) then
         if embedOk then [ImageRegion(c.imageUrl.value, ImageBox)]
         else [Placeholder("Image: " + OrElse(c.imageAlt, "Image placeholder"), brand)]
       else [Placeholder("Image Placeholder", brand)])
  }

  /** `createBlankSlide`: the display title, when it is not blank. */
  function BlankRegions(slide: Slide, brand: BrandSettings): seq<Region> {
    if |slide.title| > 0 && |Trim(slide.title)| > 0 then [Heading(slide.title, brand)] else []
  }

  /** The layout routine `createSlideFromTemplate` dispatches to. The source's
      `default` branch needs no counterpart: the type is one of five. */
  function SlideRegions(slide: Slide, brand: BrandSettings, embedOk: bool): (r: seq<Region>)
    ensures |r| <= 3
    ensures slide.slideType == Blank ==> |r| <= 1
  {
    match slide.slideType
    case Title => TitleRegions(slide, brand)
    case Content => ContentRegions(slide, brand)
    case TwoColumn => TwoColumnRegions(slide, brand)
    case ImageFocus => ImageFocusRegions(slide, brand, embedOk)
    case Blank => BlankRegions(slide, brand)
  }

  /** The background fill: set exactly when the slide's background is truthy
      and not the literal 'white', to that colour without its first '#'. */
  function SlideBackground(slide: Slide): (r: Option<string>)
    ensures r.Some? <==> Truthy(slide.background) && slide.background.value != "white"
    ensures r.Some? ==> r.value == HexToPptColor(slide.background.value)
  {
    if Truthy(slide.background) && slide.background.value != "white"
    then Some(HexToPptColor(slide.background.value))
    else None
  }

  datatype PptSlide = PptSlide(background: Option<string>, regions: seq<Region>)

  /** `createSlideFromTemplate`. */
  function CreateSlideFromTemplate(slide: Slide, brand: BrandSettings, embedOk: bool): PptSlide {
    PptSlide(SlideBackground(slide), SlideRegions(slide, brand, embedOk))
  }

  // ---------------------------------------------------------------------------
  // Facts about the layouts

  /** A title slide shows the main title (44pt, bold, centred, primary colour
      or black) exactly when the content title is truthy, then the subtitle
      (24pt, secondary colour or grey) exactly when it is truthy. */
  lemma TitleSlideLayout(slide: Slide, brand: BrandSettings, embedOk: bool)
    requires slide.slideType == Title
    ensures var r := SlideRegions(slide, brand, embedOk);
      && |r| == (if Truthy(slide.content.title) then 1 else 0) + (if Truthy(slide.content.subtitle) then 1 else 0)
      && (Truthy(slide.content.title) ==>
            r[0].TextRegion? && r[0].text == slide.content.title.value
            && r[0].style.fontSize == 44 && r[0].style.bold && r[0].style.centered
            && r[0].style.color == HexToPptColor(StrOr(brand.primaryColor, "#000000")))
      && (Truthy(slide.content.subtitle) ==>
            r[|r| - 1].TextRegion? && r[|r| - 1].text == slide.content.subtitle.value
            && r[|r| - 1].style.fontSize == 24 && !r[|r| - 1].style.bold
            && r[|r| - 1].style.color == HexToPptColor(StrOr(brand.secondaryColor, "#666666")))
      && forall k :: 0 <= k < |r| ==> r[k].TextRegion? && r[k].style.fontFace == StrOr(brand.fontFamily, "Arial")
  {
    var c := slide.content;
    var t := if Truthy(c.title) then
       [TextRegion(c.title.value, TitleBox,
          TextStyle(44, FontFace(brand), HeadingColor(brand), true, true, false, None))]
     else [];
    var s := if Truthy(c.subtitle) then
       [TextRegion(c.subtitle.value, SubtitleBox,
          TextStyle(24, FontFace(brand), HexToPptColor(StrOr(brand.secondaryColor, "#666666")),
            false, true, false, None))]
     else [];
    assert SlideRegions(slide, brand, embedOk) == t + s;
  }

  /** The body of a content slide: it becomes a bullet list exactly when the
      split yields two or more non-blank segments, whose trimmed forms are the
      items in order; otherwise the untrimmed body is one paragraph (a
      whitespace-only body included). */
  lemma ContentBodyLayout(body: string, brand: BrandSettings)
    ensures var segs := NonBlankSegments(SplitOnSeparator(body));
      var r := BodyRegions(body, brand);
      && |r| == 1
      && (r[0].BulletRegion? <==> |segs| > 1)
      && (r[0].BulletRegion? ==>
            |r[0].items| == |segs|
            && forall k :: 0 <= k < |segs| ==>
                 r[0].items[k] == Trim(segs[k]) && |r[0].items[k]| > 0 && !HasSeparator(segs[k]))
      && (r[0].TextRegion? ==> r[0].text == body)
      && (IsBlank(body) ==> r[0] == TextRegion(body, BodyBox, BodyStyle(brand)))
  {
    var segs := NonBlankSegments(SplitOnSeparator(body));
    if |segs| > 1 {
      BulletItems(body);
      SeveralSegmentsNotBlank(body);
    }
  }

  /** The items of a bullet list are the trimmed non-blank segments; none is
      empty and none holds the separator. */
  lemma BulletItems(body: string)
    requires |NonBlankSegments(SplitOnSeparator(body))| > 1
    ensures var segs := NonBlankSegments(SplitOnSeparator(body));
      forall k :: 0 <= k < |segs| ==>
        TrimAll(segs)[k] == Trim(segs[k]) && |Trim(segs[k])| > 0 && !HasSeparator(segs[k])
  {
    var parts := SplitOnSeparator(body);
    var segs := NonBlankSegments(parts);
    NonBlankSegmentsSound(parts);
    forall k | 0 <= k < |segs|
      ensures |Trim(segs[k])| > 0 && !HasSeparator(segs[k])
    {
      assert !IsBlank(segs[k]) && segs[k] in parts;
      var j :| 0 <= j < |parts| && parts[j] == segs[k];
    }
  }

  /** Two non-blank segments need a separator, whose 'n' is not whitespace. */
  lemma SeveralSegmentsNotBlank(body: string)
    requires |NonBlankSegments(SplitOnSeparator(body))| > 1
    ensures !IsBlank(body)
  {
    SplitWithoutSeparator(body);
    var i :| 0 <= i < |body| - 1 && body[i] == '\\' && body[i + 1] == 'n';
    assert !IsWhitespace(body[i + 1]);
  }

  /** The split yields more than one segment only when the separator occurs. */
  lemma SplitWithoutSeparator(s: string)
    ensures |SplitOnSeparator(s)| > 1 ==> HasSeparator(s)
  {
    var parts := SplitOnSeparator(s);
    if |parts| > 1 {
      assert s == parts[0] + LiteralBackslashN + JoinOnSeparator(parts[1..]);
      var i := |parts[0]|;
      assert s[i] == '\\' && s[i + 1] == 'n';
    }
  }

  lemma SplitThreeSegments()
    ensures SplitOnSeparator("a\\nb\\nc") == ["a", "b", "c"]
  {
    var s := "a\\nb\\nc";
    assert s[1..] == "\\nb\\nc";
    assert s[1..][2..] == "b\\nc";
    assert s[1..][2..][1..] == "\\nc";
    assert s[1..][2..][1..][2..] == "c";
    assert SplitFrom("c", "") == ["c"] by { assert "" + "c" == "c"; }
    assert SplitFrom("\\nc", "b") == ["b", "c"];
    assert SplitFrom("b\\nc", "") == ["b", "c"] by { assert "" + ['b'] == "b"; }
    assert SplitFrom("\\nb\\nc", "a") == ["a", "b", "c"];
    assert SplitFrom(s, "") == ["a", "b", "c"] by { assert "" + ['a'] == "a"; }
  }

  lemma SplitKeepsLineFeed()
    ensures SplitOnSeparator("a\nb") == ["a\nb"]
  {
    var s := "a\nb";
    assert s[1..] == "\nb";
    assert s[1..][1..] == "b";
    assert SplitFrom("b", "a\n") == ["a\nb"] by { assert "a\n" + "b" == "a\nb"; }
    assert SplitFrom("\nb", "a") == ["a\nb"] by { assert "a" + ['\n'] == "a\n"; }
    assert SplitFrom(s, "") == ["a\nb"] by { assert "" + ['a'] == "a"; }
  }

  /** The split is on the two characters backslash and n: three segments
      joined by them give three bullets. */
  lemma BodyBulletExample(brand: BrandSettings)
    ensures BodyRegions("a\\nb\\nc", brand) == [BulletRegion(["a", "b", "c"], BodyBox, BodyStyle(brand))]
  {
    SplitThreeSegments();
    LettersAreKept();
  }

  lemma LettersAreKept()
    ensures NonBlankSegments(["a", "b", "c"]) == ["a", "b", "c"]
    ensures TrimAll(["a", "b", "c"]) == ["a", "b", "c"]
  {
    var abc := ["a", "b", "c"];
    TrimLetter('a');
    TrimLetter('b');
    TrimLetter('c');
    forall k | 0 <= k < |abc| ensures Trim(abc[k]) == abc[k] && !IsBlank(abc[k]) {
      assert !IsWhitespace(abc[k][0]);
    }
    NonBlankSegmentsOfNonBlank(abc);
  }

  /** With no blank segment the filter keeps everything. */
  lemma {:induction false} NonBlankSegmentsOfNonBlank(parts: seq<string>)
    requires forall k :: 0 <= k < |parts| ==> !IsBlank(parts[k])
    ensures NonBlankSegments(parts) == parts
    decreases |parts|
  {
    if |parts| > 0 {
      assert |Trim(parts[0])| > 0;
      NonBlankSegmentsOfNonBlank(parts[1..]);
    }
  }

  /** A one-letter string that is not whitespace trims to itself. */
  lemma TrimLetter(c: char)
    requires !IsWhitespace(c)
    ensures Trim([c]) == [c]
  {
    assert SkipLeading([c], 0) == 0;
    assert SkipTrailing([c], 0, 1) == 1;
  }

  /** A real line feed is not the separator: such a body stays one paragraph. */
  lemma BodyLineFeedExample(brand: BrandSettings)
    ensures BodyRegions("a\nb", brand) == [TextRegion("a\nb", BodyBox, BodyStyle(brand))]
  {
    var body := "a\nb";
    SplitKeepsLineFeed();
    var parts := SplitOnSeparator(body);
    assert parts == [body];
    var lines := NonBlankSegments(parts);
    assert |lines| <= 1;
    assert BodyRegions(body, brand) == [TextRegion(body, BodyBox, BodyStyle(brand))];
  }

  /** `r` is the 32pt bold heading with text `text`: in the heading box, in the
      brand font (or Arial) and the primary colour (or black). */
  predicate IsHeading(r: Region, text: string, brand: BrandSettings) {
    && r.TextRegion? && r.text == text && r.box == Box(500, 500, 9000, 1000)
    && r.style.fontSize == 32 && r.style.bold
    && r.style.fontFace == StrOr(brand.fontFamily, "Arial")
    && r.style.color == HexToPptColor(StrOr(brand.primaryColor, "#000000"))
  }

  /** `r` is 18pt plain text `text` in `box`, in the brand font (or Arial) and
      the secondary colour (or dark grey). */
  predicate IsBodyText(r: Region, text: string, box: Box, brand: BrandSettings) {
    && r.TextRegion? && r.text == text && r.box == box
    && r.style.fontSize == 18 && !r.style.bold
    && r.style.fontFace == StrOr(brand.fontFamily, "Arial")
    && r.style.color == HexToPptColor(StrOr(brand.secondaryColor, "#333333"))
  }

  /** `r` is the bordered grey box reading `text` that stands in for an image:
      16pt, centred both ways, text #999999 and a 1pt #CCCCCC border, in the
      image box. */
  predicate IsPlaceholder(r: Region, text: string, brand: BrandSettings) {
    && r.TextRegion? && r.text == text && r.box == Box(2000, 2000, 6000, 4000)
    && r.style.fontSize == 16 && !r.style.bold && r.style.centered && r.style.middle
    && r.style.fontFace == StrOr(brand.fontFamily, "Arial")
    && r.style.color == HexToPptColor("#999999")
    && r.style.border == Some(Border(1, HexToPptColor("#CCCCCC")))
  }

  /** A content slide shows the heading exactly when its content title is
      truthy, followed by the body regions exactly when its body is truthy
      (one bullet list or one paragraph, as `ContentBodyLayout` states). */
  lemma ContentSlideLayout(slide: Slide, brand: BrandSettings, embedOk: bool)
    requires slide.slideType == Content
    ensures var r := SlideRegions(slide, brand, embedOk);
      var c := slide.content;
      var h := if Truthy(c.title) then 1 else 0;
      && |r| == h + (if Truthy(c.body) then 1 else 0)
      && (Truthy(c.title) ==> IsHeading(r[0], c.title.value, brand))
      && (Truthy(c.body) ==> r[h..] == BodyRegions(c.body.value, brand))
  {
    var c := slide.content;
    if Truthy(c.body) {
      ContentBodyLayout(c.body.value, brand);
    }
  }

  /** A two-column slide shows the heading exactly when its content title is
      truthy, then the left column at (0.5, 2) exactly when it is truthy, then
      the right column at (5.25, 2) exactly when it is truthy; both columns
      are 4.25 inches wide in the body style. */
  lemma TwoColumnLayout(slide: Slide, brand: BrandSettings, embedOk: bool)
    requires slide.slideType == TwoColumn
    ensures var r := SlideRegions(slide, brand, embedOk);
      var c := slide.content;
      var h := if Truthy(c.title) then 1 else 0;
      var l := if Truthy(c.leftColumn) then 1 else 0;
      && |r| == h + l + (if Truthy(c.rightColumn) then 1 else 0)
      && (Truthy(c.title) ==> IsHeading(r[0], c.title.value, brand))
      && (Truthy(c.leftColumn) ==> IsBodyText(r[h], c.leftColumn.value, Box(500, 2000, 4250, 4000), brand))
      && (Truthy(c.rightColumn) ==> IsBodyText(r[h + l], c.rightColumn.value, Box(5250, 2000, 4250, 4000), brand))
  {
  }

  /** Image-focus slides: the heading exactly when the content title is
      truthy, then one more region. A truthy image URL gives the image at
      (2, 2, 6, 4) when embedding succeeds and a bordered "Image: <alt>" box
      when it throws; without a URL the box reads "Image Placeholder". */
  lemma ImageFocusLayout(slide: Slide, brand: BrandSettings, embedOk: bool)
    requires slide.slideType == ImageFocus
    ensures var r := SlideRegions(slide, brand, embedOk);
      var last := r[|r| - 1];
      && |r| == (if Truthy(slide.content.title) then 2 else 1)
      && (Truthy(slide.content.title) ==> IsHeading(r[0], slide.content.title.value, brand))
      && (Truthy(slide.content.imageUrl) && embedOk ==>
            last == ImageRegion(slide.content.imageUrl.value, Box(2000, 2000, 6000, 4000)))
      && (Truthy(slide.content.imageUrl) && !embedOk ==>
            IsPlaceholder(last, "Image: " + OrElse(slide.content.imageAlt, "Image placeholder"), brand))
      && (!Truthy(slide.content.imageUrl) ==> IsPlaceholder(last, "Image Placeholder", brand))
  {
    PlaceholderTextColorIsConverted();
    PlaceholderBorderColorIsConverted();
  }

  /** A blank slide shows at most its display title, and only when it is not
      blank. */
  lemma BlankSlideLayout(slide: Slide, brand: BrandSettings, embedOk: bool)
    requires slide.slideType == Blank
    ensures var r := SlideRegions(slide, brand, embedOk);
      && (|r| == 1 <==> !IsBlank(slide.title))
      && (|r| == 1 ==> IsHeading(r[0], slide.title, brand))
      && (IsBlank(slide.title) ==> r == [])
  {
  }

  /** Some region of `r` is a picture. */
  predicate HasImage(r: seq<Region>) {
    exists k :: 0 <= k < |r| && r[k].ImageRegion?
  }

  /** A region lies within the canvas width and, unless it is a picture, is
      set in the brand font (or Arial). */
  predicate WellPlaced(reg: Region, brand: BrandSettings) {
    && 0 <= reg.box.x && reg.box.x + reg.box.w <= CanvasWidth
    && (!reg.ImageRegion? ==> reg.style.fontFace == FontFace(brand))
  }

  predicate AllWellPlaced(r: seq<Region>, brand: BrandSettings) {
    forall k :: 0 <= k < |r| ==> WellPlaced(r[k], brand)
  }

  lemma HasImageAppend(a: seq<Region>, b: seq<Region>)
    ensures HasImage(a + b) <==> HasImage(a) || HasImage(b)
  {
    if HasImage(a + b) {
      var k :| 0 <= k < |a + b| && (a + b)[k].ImageRegion?;
      if k < |a| {
        assert a[k] == (a + b)[k];
      } else {
        assert b[k - |a|] == (a + b)[k];
      }
    }
    if HasImage(a) {
      var k :| 0 <= k < |a| && a[k].ImageRegion?;
      assert (a + b)[k] == a[k];
    }
    if HasImage(b) {
      var k :| 0 <= k < |b| && b[k].ImageRegion?;
      assert (a + b)[|a| + k] == b[k];
    }
  }

  lemma AllWellPlacedAppend(a: seq<Region>, b: seq<Region>, brand: BrandSettings)
    ensures AllWellPlaced(a + b, brand) <==> AllWellPlaced(a, brand) && AllWellPlaced(b, brand)
  {
    if AllWellPlaced(a + b, brand) {
      forall k | 0 <= k < |a| ensures WellPlaced(a[k], brand) {
        assert (a + b)[k] == a[k];
      }
      forall k | 0 <= k < |b| ensures WellPlaced(b[k], brand) {
        assert (a + b)[|a| + k] == b[k];
      }
    }
  }

  lemma RegionsAppend(a: seq<Region>, b: seq<Region>, brand: BrandSettings)
    ensures HasImage(a + b) <==> HasImage(a) || HasImage(b)
    ensures AllWellPlaced(a + b, brand) <==> AllWellPlaced(a, brand) && AllWellPlaced(b, brand)
  {
    HasImageAppend(a, b);
    AllWellPlacedAppend(a, b, brand);
  }

  lemma OptionalHeadingFacts(slide: Slide, brand: BrandSettings)
    ensures !HasImage(OptionalHeading(slide, brand))
    ensures AllWellPlaced(OptionalHeading(slide, brand), brand)
  {
  }

  lemma TitlePlacement(slide: Slide, brand: BrandSettings)
    ensures !HasImage(TitleRegions(slide, brand)) && AllWellPlaced(TitleRegions(slide, brand), brand)
  {
    var c := slide.content;
    var t := if Truthy(c.title) then
       [TextRegion(c.title.value, TitleBox,
          TextStyle(44, FontFace(brand), HeadingColor(brand), true, true, false, None))]
     else [];
    var s := if Truthy(c.subtitle) then
       [TextRegion(c.subtitle.value, SubtitleBox,
          TextStyle(24, FontFace(brand), HexToPptColor(StrOr(brand.secondaryColor, "#666666")),
            false, true, false, None))]
     else [];
    assert TitleRegions(slide, brand) == t + s;
    RegionsAppend(t, s, brand);
  }

  lemma BodyPlacement(body: string, brand: BrandSettings)
    ensures !HasImage(BodyRegions(body, brand)) && AllWellPlaced(BodyRegions(body, brand), brand)
  {
    var r := BodyRegions(body, brand);
    assert |r| == 1 && !r[0].ImageRegion? && WellPlaced(r[0], brand);
  }

  lemma ContentPlacement(slide: Slide, brand: BrandSettings)
    ensures !HasImage(ContentRegions(slide, brand)) && AllWellPlaced(ContentRegions(slide, brand), brand)
  {
    var c := slide.content;
    var head := OptionalHeading(slide, brand);
    var b := if Truthy(c.body) then BodyRegions(c.body.value, brand) else [];
    assert ContentRegions(slide, brand) == head + b;
    if Truthy(c.body) {
      BodyPlacement(c.body.value, brand);
    }
    OptionalHeadingFacts(slide, brand);
    RegionsAppend(head, b, brand);
  }

  lemma ColumnPlacement(o: Option<string>, box: Box, brand: BrandSettings)
    requires 0 <= box.x && box.x + box.w <= CanvasWidth
    ensures !HasImage(Column(o, box, brand)) && AllWellPlaced(Column(o, box, brand), brand)
  {
  }

  lemma TwoColumnPlacement(slide: Slide, brand: BrandSettings)
    ensures !HasImage(TwoColumnRegions(slide, brand)) && AllWellPlaced(TwoColumnRegions(slide, brand), brand)
  {
    var head := OptionalHeading(slide, brand);
    var l := Column(slide.content.leftColumn, LeftColumnBox, brand);
    var r := Column(slide.content.rightColumn, RightColumnBox, brand);
    ColumnPlacement(slide.content.leftColumn, LeftColumnBox, brand);
    ColumnPlacement(slide.content.rightColumn, RightColumnBox, brand);
    OptionalHeadingFacts(slide, brand);
    RegionsAppend(head, l, brand);
    RegionsAppend(head + l, r, brand);
  }

  lemma ImageFocusPlacement(slide: Slide, brand: BrandSettings, embedOk: bool)
    ensures HasImage(ImageFocusRegions(slide, brand, embedOk)) <==> Truthy(slide.content.imageUrl) && embedOk
    ensures AllWellPlaced(ImageFocusRegions(slide, brand, embedOk), brand)
  {
    var c := slide.content;
    var pic := if Truthy(c.imageUrl) then
         if embedOk then [ImageRegion(c.imageUrl.value, ImageBox)]
         else [Placeholder("Image: " + OrElse(c.imageAlt, "Image placeholder"), brand)]
       else [Placeholder("Image Placeholder", brand)];
    OptionalHeadingFacts(slide, brand);
    RegionsAppend(OptionalHeading(slide, brand), pic, brand);
    if Truthy(c.imageUrl) && embedOk {
      assert pic[0].ImageRegion?;
    }
  }

  /** An image region appears exactly for an image-focus slide with a truthy
      URL whose embedding succeeds, and every region of every layout lies
      within the canvas width and uses the brand font (or Arial). */
  lemma RegionsPlacement(slide: Slide, brand: BrandSettings, embedOk: bool)
    ensures HasImage(SlideRegions(slide, brand, embedOk))
      <==> slide.slideType == ImageFocus && Truthy(slide.content.imageUrl) && embedOk
    ensures AllWellPlaced(SlideRegions(slide, brand, embedOk), brand)
  {
    match slide.slideType
    case Title => TitlePlacement(slide, brand);
    case Content => ContentPlacement(slide, brand);
    case TwoColumn => TwoColumnPlacement(slide, brand);
    case ImageFocus => ImageFocusPlacement(slide, brand, embedOk);
    case Blank =>
  }

  // ---------------------------------------------------------------------------
  // The deck

  /** The properties `exportToPPT` sets on the deck. */
  datatype DeckProps = DeckProps(
    author: string,
    company: string,
    title: string,
    subject: string,
    width: int,
    height: int)

  datatype Deck = Deck(props: DeckProps, slides: seq<PptSlide>, fileName: string)

  /** A character the title may keep in the file name: `[a-z0-9_]`. */
  predicate IsFileNameChar(c: char) {
    ('a' <= c <= 'z') || ('0' <= c <= '9') || c == '_'
  }

  /** `title.replace(/[^a-z0-9]/gi, '_').toLowerCase()`: every character that
      is not an ASCII letter or digit becomes '_', then letters go to lower
      case. */
  function FileStem(title: string): (stem: string)
    ensures |stem| == |title|
    ensures forall i :: 0 <= i < |stem| ==> IsFileNameChar(stem[i])
    ensures forall i :: 0 <= i < |title| && IsAsciiAlnum(title[i]) ==> stem[i] == LowerAscii(title[i])
    ensures forall i :: 0 <= i < |title| && !IsAsciiAlnum(title[i]) ==> stem[i] == '_'
  {
    seq(|title|, i requires 0 <= i < |title| =>
      LowerAscii(if IsAsciiAlnum(title[i]) then title[i] else '_'))
  }

  /** The download name: the stem followed by ".pptx". */
  function ExportFileName(title: string): (name: string)
    ensures |name| == |title| + 5
    ensures name[|title|..] == ".pptx"
    ensures forall i :: 0 <= i < |title| ==> IsFileNameChar(name[i])
  {
    FileStem(title) + ".pptx"
  }

  /** A stem is already a stem: deriving the file name from it changes nothing. */
  lemma FileStemIdempotent(title: string)
    ensures FileStem(FileStem(title)) == FileStem(title)
  {
    var s := FileStem(title);
    forall i | 0 <= i < |s| ensures FileStem(s)[i] == s[i] {
      assert IsFileNameChar(s[i]);
    }
  }

  /** `exportToPPT` without the library and the file write: the deck's
      properties, one exported slide per slide, and the file name.
      `embedOk[i]` is whether the image of slide `i` embeds. */
  function ExportDeck(p: Presentation, embedOk: seq<bool>): (d: Deck)
    requires |embedOk| == |p.slides|
    ensures d.props.author == "Presentation Builder" && d.props.company == "Blink"
    ensures d.props.title == p.title
    ensures d.props.subject == OrElse(p.description, "Created with Presentation Builder")
    ensures d.props.width == CanvasWidth && d.props.height == CanvasHeight
    ensures |d.slides| == |p.slides|
    ensures forall i :: 0 <= i < |p.slides| ==>
      d.slides[i] == CreateSlideFromTemplate(p.slides[i], p.brandSettings, embedOk[i])
    ensures d.fileName == ExportFileName(p.title)
  {
    Deck(
      DeckProps("Presentation Builder", "Blink", p.title,
        OrElse(p.description, "Created with Presentation Builder"), CanvasWidth, CanvasHeight),
      seq(|p.slides|, i requires 0 <= i < |p.slides| =>
        CreateSlideFromTemplate(p.slides[i], p.brandSettings, embedOk[i])),
      ExportFileName(p.title))
  }

  /** An image that fails to embed costs only its own slide: every other slide
      is exported the same, and that slide keeps its background and its
      number of regions, with the placeholder in place of the image. */
  lemma ImageFailureIsLocal(p: Presentation, ok: seq<bool>, j: nat)
    requires |ok| == |p.slides| && j < |ok|
    ensures var good := ExportDeck(p, ok[j := true]);
      var bad := ExportDeck(p, ok[j := false]);
      && (forall i :: 0 <= i < |p.slides| && i != j ==> good.slides[i] == bad.slides[i])
      && good.slides[j].background == bad.slides[j].background
      && |good.slides[j].regions| == |bad.slides[j].regions|
      && good.fileName == bad.fileName && good.props == bad.props
  {
  }

  // ---------------------------------------------------------------------------
  // convertSlideContent

  /** The layout-specific record `convertSlideContent` builds; `fields` lists
      the content keys in the order the source writes them. */
  datatype ConvertedSlide = ConvertedSlide(
    title: string,
    slideType: SlideType,
    background: Option<string>,
    layout: string,
    fields: seq<(ContentKey, string)>)

  /** Which content keys each layout carries. */
  function KeysFor(t: SlideType): seq<ContentKey> {
    match t
    case Title => [TitleKey, SubtitleKey]
    case Content => [TitleKey, BodyKey]
    case TwoColumn => [TitleKey, LeftColumnKey, RightColumnKey]
    case ImageFocus => [TitleKey, ImageUrlKey, ImageAltKey]
    case Blank => []
  }

  /** `convertSlideContent`: the display title, type and background, a layout
      name, and for each key of the layout the content field or ''. */
  function ConvertSlideContent(slide: Slide): (r: ConvertedSlide)
    ensures r.title == slide.title && r.slideType == slide.slideType && r.background == slide.background
    ensures |r.fields| == |KeysFor(slide.slideType)|
    ensures forall k :: 0 <= k < |r.fields| ==>
      r.fields[k].0 == KeysFor(slide.slideType)[k]
      && r.fields[k].1 == OrElse(Get(slide.content, r.fields[k].0), "")
    ensures r.layout == (match slide.slideType
      case Title => "title" case Content => "content" case TwoColumn => "twoColumn"
      case ImageFocus => "imageFocus" case Blank => "blank")
  {
    var c := slide.content;
    match slide.slideType
    case Title =>
      ConvertedSlide(slide.title, Title, slide.background, "title",
        [(TitleKey, OrElse(c.title, "")), (SubtitleKey, OrElse(c.subtitle, ""))])
    case Content =>
      ConvertedSlide(slide.title, Content, slide.background, "content",
        [(TitleKey, OrElse(c.title, "")), (BodyKey, OrElse(c.body, ""))])
    case TwoColumn =>
      ConvertedSlide(slide.title, TwoColumn, slide.background, "twoColumn",
        [(TitleKey, OrElse(c.title, "")), (LeftColumnKey, OrElse(c.leftColumn, "")),
         (RightColumnKey, OrElse(c.rightColumn, ""))])
    case ImageFocus =>
      ConvertedSlide(slide.title, ImageFocus, slide.background, "imageFocus",
        [(TitleKey, OrElse(c.title, "")), (ImageUrlKey, OrElse(c.imageUrl, "")),
         (ImageAltKey, OrElse(c.imageAlt, ""))])
    case Blank =>
      ConvertedSlide(slide.title, Blank, slide.background, "blank", [])
  }

  /** The converted record and the exported layout agree: for every layout but
      blank, the exported slide has a heading exactly when the converted title
      is non-empty, and it shows that text. */
  lemma ConvertedTitleMatchesHeading(slide: Slide, brand: BrandSettings, embedOk: bool)
    requires slide.slideType != Blank
    ensures var conv := ConvertSlideContent(slide);
      var r := SlideRegions(slide, brand, embedOk);
      && conv.fields[0].0 == TitleKey
      && (|conv.fields[0].1| > 0 <==> |r| > 0 && r[0].TextRegion? && r[0].text == conv.fields[0].1 && r[0].style.bold)
  {
  }
}
