/**
 The editing canvas: its zoom control, the edit of one content field of the
 slide on screen, and the background colour it paints.
 */
module SlideCanvas {
  import opened JsStrings
  import opened PresentationTypes
  import opened Mutations
  import opened PptExport

  // ---------------------------------------------------------------------------
  // Zoom, in percent

  const InitialZoom: int := 100
  const ZoomStep: int := 25
  const MinZoom: int := 50
  const MaxZoom: int := 200

  /** `Math.min(prev + 25, 200)`. */
  function ZoomIn(z: int): (r: int)
    ensures r <= MaxZoom && r <= z + ZoomStep
    ensures r == z + ZoomStep || r == MaxZoom
  {
    if z + ZoomStep < MaxZoom then z + ZoomStep else MaxZoom
  }

  /** `Math.max(prev - 25, 50)`. */
  function ZoomOut(z: int): (r: int)
    ensures r >= MinZoom && r >= z - ZoomStep
    ensures r == z - ZoomStep || r == MinZoom
  {
    if z - ZoomStep > MinZoom then z - ZoomStep else MinZoom
  }

  /** The buttons are disabled at `zoom >= 200` and `zoom <= 50`. */
  predicate ZoomInEnabled(z: int) {
    z < MaxZoom
  }

  predicate ZoomOutEnabled(z: int) {
    z > MinZoom
  }

  /** The zoom levels the control can show. */
  predicate ValidZoom(z: int) {
    MinZoom <= z <= MaxZoom && z % ZoomStep == 0
  }

  datatype ZoomPress = PressIn | PressOut

  function Press(z: int, b: ZoomPress): int {
    match b
    case PressIn => ZoomIn(z)
    case PressOut => ZoomOut(z)
  }

  /** The zoom after a run of presses, in order. */
  function PressAll(z: int, presses: seq<ZoomPress>): int
    decreases |presses|
  {
    if |presses| == 0 then z else PressAll(Press(z, presses[0]), presses[1..])
  }

  /** A single press keeps the zoom a valid level. */
  lemma PressKeepsValid(z: int, b: ZoomPress)
    requires ValidZoom(z)
    ensures ValidZoom(Press(z, b))
  {
  }

  lemma {:induction false} PressesKeepValid(z: int, presses: seq<ZoomPress>)
    requires ValidZoom(z)
    ensures ValidZoom(PressAll(z, presses))
    decreases |presses|
  {
    if |presses| > 0 {
      PressKeepsValid(z, presses[0]);
      PressesKeepValid(Press(z, presses[0]), presses[1..]);
    }
  }

  /** From the initial 100%, any run of presses stays within 50..200 and on a
      multiple of 25. */
  lemma ZoomFromStartStaysValid(presses: seq<ZoomPress>)
    ensures ValidZoom(PressAll(InitialZoom, presses))
    ensures MinZoom <= PressAll(InitialZoom, presses) <= MaxZoom
  {
    PressesKeepValid(InitialZoom, presses);
  }

  /** At a valid level a press moves exactly one step when its button is
      enabled and changes nothing when it is disabled; in particular the
      clamps are idempotent at the bounds. */
  lemma PressMovesOneStep(z: int)
    requires ValidZoom(z)
    ensures ZoomInEnabled(z) ==> ZoomIn(z) == z + ZoomStep
    ensures !ZoomInEnabled(z) ==> ZoomIn(z) == z
    ensures ZoomOutEnabled(z) ==> ZoomOut(z) == z - ZoomStep
    ensures !ZoomOutEnabled(z) ==> ZoomOut(z) == z
    ensures ZoomIn(MaxZoom) == MaxZoom && ZoomOut(MinZoom) == MinZoom
  {
  }

  /** An enabled press is undone by the opposite press. */
  lemma ZoomInOutUndo(z: int)
    requires ValidZoom(z)
    ensures ZoomInEnabled(z) ==> ZoomOut(ZoomIn(z)) == z
    ensures ZoomOutEnabled(z) ==> ZoomIn(ZoomOut(z)) == z
  {
  }

  // ---------------------------------------------------------------------------
  // Editing one content field

  /** `{ ...content, [field]: value }`. */
  function SetField(c: SlideContent, k: ContentKey, v: string): (r: SlideContent)
    ensures Get(r, k) == Some(v)
    ensures forall j :: j != k ==> Get(r, j) == Get(c, j)
  {
    match k
    case TitleKey => c.(title := Some(v))
    case SubtitleKey => c.(subtitle := Some(v))
    case BodyKey => c.(body := Some(v))
    case LeftColumnKey => c.(leftColumn := Some(v))
    case RightColumnKey => c.(rightColumn := Some(v))
    case ImageUrlKey => c.(imageUrl := Some(v))
    case ImageAltKey => c.(imageAlt := Some(v))
  }

  /** Content is determined by its seven fields. */
  lemma ContentExtensional(a: SlideContent, b: SlideContent)
    requires forall k :: Get(a, k) == Get(b, k)
    ensures a == b
  {
    assert Get(a, TitleKey) == Get(b, TitleKey) && Get(a, SubtitleKey) == Get(b, SubtitleKey);
    assert Get(a, BodyKey) == Get(b, BodyKey) && Get(a, LeftColumnKey) == Get(b, LeftColumnKey);
    assert Get(a, RightColumnKey) == Get(b, RightColumnKey) && Get(a, ImageUrlKey) == Get(b, ImageUrlKey);
    assert Get(a, ImageAltKey) == Get(b, ImageAltKey);
  }

  /** The field edit behaves like a map update: the last write to a field
      wins, writes to different fields commute, and writing back a field's
      present value changes nothing. */
  lemma SetFieldLaws(c: SlideContent, k: ContentKey, j: ContentKey, v: string, w: string)
    ensures SetField(SetField(c, k, v), k, w) == SetField(c, k, w)
    ensures k != j ==> SetField(SetField(c, k, v), j, w) == SetField(SetField(c, j, w), k, v)
    ensures Get(c, k) == Some(v) ==> SetField(c, k, v) == c
  {
    ContentExtensional(SetField(SetField(c, k, v), k, w), SetField(c, k, w));
    if k != j {
      ContentExtensional(SetField(SetField(c, k, v), j, w), SetField(SetField(c, j, w), k, v));
    }
    if Get(c, k) == Some(v) {
      ContentExtensional(SetField(c, k, v), c);
    }
  }

  /** The partial update `handleContentUpdate` sends: only `content`, the
      slide's whole content with one field replaced. */
  function ContentPatch(slide: Slide, k: ContentKey, v: string): SlidePatch {
    EmptySlidePatch.(content := Some(SetField(slide.content, k, v)))
  }

  /** `handleContentUpdate(field, value)` on the slide on screen, passed to
      `updateSlide` for that slide's id. */
  function HandleContentUpdate(p: Presentation, onScreen: Slide, k: ContentKey, v: string, now: int): Presentation {
    UpdateSlide(p, onScreen.id, ContentPatch(onScreen, k, v), now)
  }

  /** With unique ids, editing a field of slide `i` sets that field and
      changes nothing else in the document: not the other fields of that
      slide, not its other properties, not the other slides. */
  lemma ContentUpdateChangesOneField(p: Presentation, i: nat, k: ContentKey, v: string, now: int)
    requires UniqueIds(p.slides) && i < |p.slides|
    ensures var r := HandleContentUpdate(p, p.slides[i], k, v, now);
      && |r.slides| == |p.slides|
      && (forall j :: 0 <= j < |p.slides| && j != i ==> r.slides[j] == p.slides[j])
      && r.slides[i].(content := p.slides[i].content) == p.slides[i]
      && Get(r.slides[i].content, k) == Some(v)
      && (forall key :: key != k ==> Get(r.slides[i].content, key) == Get(p.slides[i].content, key))
      && r == p.(slides := r.slides, updatedAt := now)
  {
    var r := HandleContentUpdate(p, p.slides[i], k, v, now);
    forall j | 0 <= j < |p.slides| && j != i ensures r.slides[j] == p.slides[j] {
      assert p.slides[j].id != p.slides[i].id;
    }
  }

  /** Why the spread is needed: sending only the edited field as the new
      content, which `updateSlide` stores wholesale, would drop every other
      field. */
  lemma WholesaleContentDropsFields(p: Presentation, i: nat, k: ContentKey, v: string, now: int)
    requires i < |p.slides|
    ensures var u := EmptySlidePatch.(content := Some(SetField(EmptyContent, k, v)));
      var r := UpdateSlide(p, p.slides[i].id, u, now);
      forall key :: key != k ==> Get(r.slides[i].content, key) == None
  {
  }

  // ---------------------------------------------------------------------------
  // Background

  const CanvasDefaultBackground: string := "#ffffff"

  /** `slide.background || '#ffffff'`. */
  function CanvasBackground(slide: Slide): (r: string)
    ensures Truthy(slide.background) ==> r == slide.background.value
    ensures !Truthy(slide.background) ==> r == CanvasDefaultBackground
  {
    OrElse(slide.background, CanvasDefaultBackground)
  }

  /** The canvas and the export agree on every colour except the two
      sentinels: the export fills a background exactly when the canvas paints
      the slide's own colour and that colour is not 'white', and then it fills
      the canvas colour without its first '#'. */
  lemma CanvasAndExportBackgrounds(slide: Slide)
    ensures SlideBackground(slide).Some? <==>
      Truthy(slide.background) && CanvasBackground(slide) != "white"
    ensures SlideBackground(slide).Some? ==>
      SlideBackground(slide).value == HexToPptColor(CanvasBackground(slide))
  {
  }

  /** The sentinels differ: an explicit '#ffffff' is painted exactly like a
      missing background on the canvas, yet the export fills it, while an
      explicit 'white' is left unfilled. */
  lemma BackgroundSentinelsDiffer(s: Slide)
    ensures CanvasBackground(s.(background := Some("#ffffff"))) == CanvasBackground(s.(background := None))
    ensures SlideBackground(s.(background := Some("#ffffff"))) == Some("ffffff")
    ensures SlideBackground(s.(background := None)).None?
    ensures SlideBackground(s.(background := Some("white"))).None?
  {
    var hex := "#ffffff";
    var digits := "ffffff";
    assert hex != "white" by { assert hex[0] != "white"[0]; }
    assert hex == ['#'] + digits;
    HexToPptColorStripsLeadingHash(digits);
    var a := s.(background := Some(hex));
    assert SlideBackground(a) == Some(HexToPptColor(hex));
  }
}
