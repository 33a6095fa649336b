/**
 The check the editor runs before exporting: every problem with the document,
 as user-facing messages in a fixed order, and the gate that exports only a
 document with no problems.
 */
module ExportValidation {
  import opened JsStrings
  import opened PresentationTypes
  import opened Mutations
  import opened PptExport

  const TitleRequired: string := "Presentation title is required"
  const SlidesRequired: string := "Presentation must have at least one slide"

  /** The message for a slide whose display title is blank; `position` counts from 1. */
  function MissingTitle(position: nat): string {
    "Slide " + NatToString(position) + " is missing a title"
  }

  /** The message for a title slide without a main title; `position` counts from 1. */
  function MissingMainTitle(position: nat): string {
    "Title slide " + NatToString(position) + " is missing main title content"
  }

  /** A message about one slide: these start with 'S' or 'T', the two
      document-level messages with 'P'. */
  predicate IsSlideMessage(e: string) {
    |e| > 0 && (e[0] == 'S' || e[0] == 'T')
  }

  // ---------------------------------------------------------------------------
  // What an exportable document is, stated independently of the messages

  /** A slide passes when its display title is not blank and, if it is a
      title slide, its main title is truthy (it is not trimmed). */
  predicate SlideReady(s: Slide) {
    !IsBlank(s.title) && (s.slideType == Title ==> Truthy(s.content.title))
  }

  predicate AllSlidesReady(slides: seq<Slide>) {
    forall i :: 0 <= i < |slides| ==> SlideReady(slides[i])
  }

  predicate ExportReady(p: Presentation) {
    !IsBlank(p.title) && |p.slides| > 0 && AllSlidesReady(p.slides)
  }

  // ---------------------------------------------------------------------------
  // The messages

  /** The body of the `forEach` for the slide at `index`. */
  function SlideErrors(s: Slide, index: nat): (errs: seq<string>)
    ensures errs == [] <==> SlideReady(s)
    ensures MissingTitle(index + 1) in errs <==> IsBlank(s.title)
    ensures MissingMainTitle(index + 1) in errs <==> s.slideType == Title && !Truthy(s.content.title)
    ensures |errs| == (if IsBlank(s.title) then 1 else 0)
      + (if s.slideType == Title && !Truthy(s.content.title) then 1 else 0)
    ensures |errs| == 2 ==> errs == [MissingTitle(index + 1), MissingMainTitle(index + 1)]
    ensures forall e :: e in errs ==> IsSlideMessage(e)
  {
    assert MissingTitle(index + 1)[0] == 'S' && MissingMainTitle(index + 1)[0] == 'T';
    (if |Trim(s.title)| == 0 then [MissingTitle(index + 1)] else [])
    + (if s.slideType == Title && !Truthy(s.content.title) then [MissingMainTitle(index + 1)] else [])
  }

  /** The messages of all slides, slide by slide in index order. */
  function SlidesErrors(slides: seq<Slide>): (errs: seq<string>)
    ensures errs == [] <==> AllSlidesReady(slides)
    ensures forall e :: e in errs ==> IsSlideMessage(e)
    ensures |errs| <= 2 * |slides|
    ensures |slides| > 0 ==>
      |errs| == |SlidesErrors(slides[..|slides| - 1])| + |SlideErrors(slides[|slides| - 1], |slides| - 1)|
  {
    if |slides| == 0 then []
    else
      var n := |slides| - 1;
      var front := SlidesErrors(slides[..n]);
      var last := SlideErrors(slides[n], n);
      AllSlidesReadySplit(slides);
      assert forall e :: e in front + last ==> e in front || e in last;
      front + last
  }

  /** Every slide is ready exactly when all but the last are and the last is. */
  lemma AllSlidesReadySplit(slides: seq<Slide>)
    requires |slides| > 0
    ensures AllSlidesReady(slides) <==>
      AllSlidesReady(slides[..|slides| - 1]) && SlideReady(slides[|slides| - 1])
  {
    var n := |slides| - 1;
    if AllSlidesReady(slides[..n]) && SlideReady(slides[n]) {
      forall i | 0 <= i < |slides| ensures SlideReady(slides[i]) {
        if i < n {
          assert slides[i] == slides[..n][i];
        }
      }
    }
  }

  /** Errors of earlier slides come before those of later ones: the messages
      of the first `k` slides are a prefix of all the messages. */
  lemma {:induction false} SlidesErrorsPrefix(slides: seq<Slide>, k: nat)
    requires k <= |slides|
    ensures SlidesErrors(slides[..k]) <= SlidesErrors(slides)
    decreases |slides|
  {
    if k == |slides| {
      assert slides[..k] == slides;
    } else {
      var n := |slides| - 1;
      var front := slides[..n];
      assert front[..k] == slides[..k];
      SlidesErrorsPrefix(front, k);
      SlidesErrorsStep(slides);
    }
  }

  /** Slide `i`'s messages sit in the full list right after the messages of
      slides `0..i-1`, and the last slide's messages end the list: the list
      is the slides' messages in index order and nothing else. */
  lemma SlidesErrorsAt(slides: seq<Slide>, i: nat)
    requires i < |slides|
    ensures SlidesErrors(slides[..i]) + SlideErrors(slides[i], i) <= SlidesErrors(slides)
    ensures i == |slides| - 1 ==> SlidesErrors(slides[..i]) + SlideErrors(slides[i], i) == SlidesErrors(slides)
  {
    var upto := slides[..i + 1];
    assert upto[..i] == slides[..i];
    assert upto[i] == slides[i];
    assert SlidesErrors(upto) == SlidesErrors(upto[..i]) + SlideErrors(upto[i], i);
    SlidesErrorsPrefix(slides, i + 1);
  }

  /** One unfolding of the fold, with the prefix relation it gives. */
  lemma SlidesErrorsStep(slides: seq<Slide>)
    requires |slides| > 0
    ensures SlidesErrors(slides[..|slides| - 1]) <= SlidesErrors(slides)
  {
    var n := |slides| - 1;
    var b := SlidesErrors(slides[..n]);
    var c := SlideErrors(slides[n], n);
    assert SlidesErrors(slides) == b + c;
    assert (b + c)[..|b|] == b;
  }

  /** The document-level messages, in the order the source checks them. */
  function DocumentErrors(p: Presentation): (errs: seq<string>)
    ensures errs == [] <==> !IsBlank(p.title) && |p.slides| > 0
    ensures |errs| == (if IsBlank(p.title) then 1 else 0) + (if |p.slides| == 0 then 1 else 0)
    ensures |errs| == 2 ==> errs == [TitleRequired, SlidesRequired]
    ensures IsBlank(p.title) ==> errs[0] == TitleRequired
    ensures forall e :: e in errs ==> !IsSlideMessage(e)
    ensures TitleRequired in errs <==> IsBlank(p.title)
    ensures SlidesRequired in errs <==> |p.slides| == 0
  {
    assert TitleRequired != SlidesRequired by { assert |TitleRequired| != |SlidesRequired|; }
    assert !IsSlideMessage(TitleRequired) && !IsSlideMessage(SlidesRequired);
    (if |Trim(p.title)| == 0 then [TitleRequired] else [])
    + (if |p.slides| == 0 then [SlidesRequired] else [])
  }

  /** `validatePresentationForExport`: empty exactly for an exportable
      document; the document-level messages come first, then the slides'
      messages in index order. */
  function ValidatePresentationForExport(p: Presentation): (errs: seq<string>)
    ensures errs == [] <==> ExportReady(p)
    ensures IsBlank(p.title) ==> errs[0] == TitleRequired
    ensures |p.slides| == 0 ==>
      errs == (if IsBlank(p.title) then [TitleRequired, SlidesRequired] else [SlidesRequired])
    ensures !IsBlank(p.title) && |p.slides| > 0 ==> errs == SlidesErrors(p.slides)
    ensures errs == DocumentErrors(p) + SlidesErrors(p.slides)
  {
    var docErrs := DocumentErrors(p);
    var slideErrs := SlidesErrors(p.slides);
    assert |p.slides| == 0 ==> slideErrs == [] && (IsBlank(p.title) || docErrs == [SlidesRequired]);
    assert IsBlank(p.title) ==> (docErrs + slideErrs)[0] == docErrs[0];
    docErrs + slideErrs
  }

  /** A document-level message is reported exactly when its condition holds;
      no slide message can be mistaken for one. */
  lemma DocumentMessagesReported(p: Presentation)
    ensures TitleRequired in ValidatePresentationForExport(p) <==> IsBlank(p.title)
    ensures SlidesRequired in ValidatePresentationForExport(p) <==> |p.slides| == 0
  {
    var docErrs := DocumentErrors(p);
    var slideErrs := SlidesErrors(p.slides);
    assert ValidatePresentationForExport(p) == docErrs + slideErrs;
    NotASlideMessage(p.slides, TitleRequired);
    NotASlideMessage(p.slides, SlidesRequired);
  }

  lemma NotASlideMessage(slides: seq<Slide>, e: string)
    requires e == TitleRequired || e == SlidesRequired
    ensures e !in SlidesErrors(slides)
  {
    assert !IsSlideMessage(e);
  }

  // ---------------------------------------------------------------------------
  // Two concrete documents

  lemma NatToStringOne()
    ensures NatToString(1) == "1"
  {
  }

  /** No title and no slides: exactly the two document-level messages. */
  lemma EmptyDocumentMessages(p: Presentation)
    requires p.title == "" && p.slides == []
    ensures ValidatePresentationForExport(p) == [TitleRequired, SlidesRequired]
  {
  }

  lemma MissingMainTitleOne()
    ensures MissingMainTitle(1) == "Title slide 1 is missing main title content"
  {
    NatToStringOne();
  }

  /** One title slide whose main title is missing or empty: exactly one
      message, and it names slide 1. */
  lemma MissingMainTitleMessage(p: Presentation, s: Slide)
    requires p.title == "Deck" && p.slides == [s]
    requires s.slideType == Title && s.title == "Slide 1" && !Truthy(s.content.title)
    ensures ValidatePresentationForExport(p) == ["Title slide 1 is missing main title content"]
  {
    assert !IsWhitespace(p.title[0]);
    assert !IsWhitespace(s.title[0]);
    assert SlideErrors(s, 0) == [MissingMainTitle(1)];
    assert [s][..0] == [];
    assert SlidesErrors([s]) == SlideErrors(s, 0);
    MissingMainTitleOne();
  }

  // ---------------------------------------------------------------------------
  // Which edits keep a document exportable

  lemma SlideLabelNotBlank(position: nat)
    ensures !IsBlank(SlideLabel(position))
  {
    assert SlideLabel(position)[0] == 'S';
  }

  /** The document the editor opens with can be exported as it is. */
  lemma InitialPresentationIsReady(slideId: string, createdAt: int, updatedAt: int)
    ensures ExportReady(InitialPresentation(slideId, createdAt, updatedAt))
  {
    var p := InitialPresentation(slideId, createdAt, updatedAt);
    assert !IsWhitespace(p.title[0]);
    assert !IsWhitespace(p.slides[0].title[0]);
    assert CreateDefaultSlide(slideId, 0).content.title == Some("Welcome to Your Presentation");
  }

  lemma AddSlideKeepsReady(p: Presentation, t: SlideType, freshId: string, now: int)
    requires ExportReady(p)
    ensures ExportReady(AddSlide(p, t, freshId, now))
  {
    var r := AddSlide(p, t, freshId, now);
    SlideLabelNotBlank(|p.slides|);
    forall i | 0 <= i < |r.slides| ensures SlideReady(r.slides[i]) {
      if i < |p.slides| {
        assert r.slides[i] == r.slides[..|p.slides|][i];
      }
    }
  }

  lemma DuplicateSlideKeepsReady(p: Presentation, id: string, freshId: string, now: int)
    requires ExportReady(p)
    ensures ExportReady(DuplicateSlide(p, id, freshId, now))
  {
    var r := DuplicateSlide(p, id, freshId, now);
    if HasId(p.slides, id) {
      var k := FindIndex(p.slides, id).value;
      var copy := r.slides[k + 1];
      assert copy.title == p.slides[k].title + " (Copy)";
      assert copy.title[|p.slides[k].title| + 2] == 'C';
      assert SlideReady(copy);
    }
  }

  lemma ReorderSlidesKeepsReady(p: Presentation, from: nat, to: nat, now: int)
    requires from < |p.slides| && to < |p.slides|
    requires ExportReady(p)
    ensures ExportReady(ReorderSlides(p, from, to, now))
  {
    var r := ReorderSlides(p, from, to, now);
    forall i | 0 <= i < |r.slides| ensures SlideReady(r.slides[i]) {
      assert SlideReady(p.slides[MovedFrom(from, to, i)]);
    }
  }

  /** Deleting keeps a document exportable as long as a slide remains. */
  lemma DeleteSlideKeepsReady(p: Presentation, id: string, now: int)
    requires ExportReady(p)
    requires |DeleteSlide(p, id, now).slides| > 0
    ensures ExportReady(DeleteSlide(p, id, now))
  {
    var r := DeleteSlide(p, id, now);
    var ix := SurvivorIndices(p.slides, id);
    forall k | 0 <= k < |r.slides| ensures SlideReady(r.slides[k]) {
      assert SlideReady(p.slides[ix[k]]);
    }
  }

  /** A slide update keeps a document exportable when every patched slide
      still passes on its own. */
  lemma UpdateSlideKeepsReady(p: Presentation, id: string, u: SlidePatch, now: int)
    requires ExportReady(p)
    requires forall i :: 0 <= i < |p.slides| && p.slides[i].id == id ==> SlideReady(ApplySlidePatch(p.slides[i], u))
    ensures ExportReady(UpdateSlide(p, id, u, now))
  {
  }

  /** Brand changes never affect exportability; a metadata change keeps it
      unless it blanks the title. */
  lemma SettingsKeepReady(p: Presentation, b: BrandPatch, m: MetaPatch, now: int)
    requires ExportReady(p)
    ensures ExportReady(UpdateBrandSettings(p, b, now))
    ensures ExportReady(UpdatePresentationMeta(p, m, now)) <==> (m.title.Some? ==> !IsBlank(m.title.value))
  {
  }

  // ---------------------------------------------------------------------------
  // The export gate

  datatype ExportOutcome = Rejected(errors: seq<string>) | Exported(deck: Deck)

  /** The editor's export handler: a document with problems is rejected with
      all of its messages and nothing is written; otherwise the deck is built. */
  function ExportIfValid(p: Presentation, embedOk: seq<bool>): (r: ExportOutcome)
    requires |embedOk| == |p.slides|
    ensures r.Rejected? <==> !ExportReady(p)
    ensures r.Rejected? ==> |r.errors| > 0 && r.errors == ValidatePresentationForExport(p)
    ensures r.Exported? ==> r.deck == ExportDeck(p, embedOk) && |r.deck.slides| > 0
  {
    var errs := ValidatePresentationForExport(p);
    if |errs| > 0 then Rejected(errs) else Exported(ExportDeck(p, embedOk))
  }
}
