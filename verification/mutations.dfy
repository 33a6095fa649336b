/**
 The mutation layer of the editor: the snapshot-to-snapshot updaters that the
 presentation hook hands to `setPresentation`, the default document, and the
 rule that moves the current-slide cursor after a delete.

 The clock is a parameter: `now` is the timestamp an updater stamps into
 `updatedAt`, and every id the source derives from `Date.now()` is passed in.
 */
module Mutations {
  import opened JsStrings
  import opened PresentationTypes

  // ---------------------------------------------------------------------------
  // Defaults

  const DefaultBrandSettings: BrandSettings :=
    BrandSettings("#6366F1", "#F59E0B", "#10B981", "Inter", None, TopRight)

  /** The display label a slide gets from its position: "Slide {position+1}". */
  function SlideLabel(position: nat): string {
    "Slide " + NatToString(position + 1)
  }

  /** `createDefaultSlide(order)`; `id` stands for the clock-derived id. */
  function CreateDefaultSlide(id: string, order: nat): (s: Slide)
    ensures s.id == id && s.order == order && s.slideType == Title
    ensures s.title == SlideLabel(order)
    ensures s.content.title == Some("Welcome to Your Presentation")
    ensures s.content.subtitle == Some("Click to edit this subtitle")
    ensures s.content.(title := None, subtitle := None) == EmptyContent
    ensures s.background.None?
  {
    Slide(id, Title, SlideLabel(order),
      EmptyContent.(title := Some("Welcome to Your Presentation"),
                    subtitle := Some("Click to edit this subtitle")),
      None, order)
  }

  /** The document the hook starts from. The source reads the clock twice, so
      the two timestamps are separate parameters. */
  function InitialPresentation(slideId: string, createdAt: int, updatedAt: int): (p: Presentation)
    ensures |p.slides| == 1
    ensures p.slides[0].slideType == Title && p.slides[0].order == 0
    ensures p.slides[0].title == "Slide 1"
    ensures OrdersMatchIndex(p.slides) && UniqueIds(p.slides)
    ensures p.title == "My Presentation" && p.description.None?
    ensures p.brandSettings.logoUrl.None? && p.brandSettings.logoPosition == TopRight
    ensures p.brandSettings.primaryColor == "#6366F1" && p.brandSettings.secondaryColor == "#F59E0B"
    ensures p.brandSettings.accentColor == "#10B981" && p.brandSettings.fontFamily == "Inter"
  {
    Presentation("presentation-1", "My Presentation", None,
      [CreateDefaultSlide(slideId, 0)], DefaultBrandSettings, createdAt, updatedAt)
  }

  // ---------------------------------------------------------------------------
  // Lookup and renumbering

  /** `findIndex(s => s.id === id)`: the first slide with the id, if any. */
  function FindIndex(slides: seq<Slide>, id: string): (r: Option<nat>)
    ensures r.Some? ==> r.value < |slides| && slides[r.value].id == id
    ensures r.Some? ==> forall j :: 0 <= j < r.value ==> slides[j].id != id
    ensures r.None? <==> !HasId(slides, id)
  {
    if |slides| == 0 then None
    else if slides[0].id == id then Some(0)
    else
      match FindIndex(slides[1..], id)
      case None =>
        assert forall j :: 0 <= j < |slides| ==> slides[j].id != id by {
          forall j | 0 <= j < |slides| ensures slides[j].id != id {
            if j > 0 { assert slides[j] == slides[1..][j - 1]; }
          }
        }
        None
      case Some(k) =>
        assert slides[k + 1] == slides[1..][k];
        assert forall j :: 1 <= j < k + 1 ==> slides[j] == slides[1..][j - 1];
        Some(k + 1)
  }

  /** `map((slide, index) => ({ ...slide, order: index }))`. */
  function Renumber(slides: seq<Slide>): (r: seq<Slide>)
    ensures |r| == |slides| && OrdersMatchIndex(r)
    ensures forall i :: 0 <= i < |r| ==> r[i] == slides[i].(order := i)
    ensures OrdersMatchIndex(slides) ==> r == slides
  {
    seq(|slides|, i requires 0 <= i < |slides| => slides[i].(order := i))
  }

  /** A slide with its position forgotten: what a renumbering leaves alone. */
  function Unnumbered(s: Slide): Slide {
    s.(order := 0)
  }

  function UnnumberedAll(slides: seq<Slide>): (r: seq<Slide>)
    ensures |r| == |slides|
    ensures forall i :: 0 <= i < |r| ==> r[i] == Unnumbered(slides[i])
  {
    seq(|slides|, i requires 0 <= i < |slides| => Unnumbered(slides[i]))
  }

  lemma UnnumberedAllAppend(a: seq<Slide>, b: seq<Slide>)
    ensures UnnumberedAll(a + b) == UnnumberedAll(a) + UnnumberedAll(b)
  {
  }

  // ---------------------------------------------------------------------------
  // addSlide

  /** The content a new slide starts with: a placeholder title and subtitle for
      a title slide, a placeholder title and body for every other type. */
  function NewSlideContent(t: SlideType): SlideContent {
    if t == Title then EmptyContent.(title := Some("New Title"), subtitle := Some("Subtitle here"))
    else EmptyContent.(title := Some("New Slide"), body := Some("Add your content here..."))
  }

  /** `addSlide(type)`: appends one slide, without renumbering the others. */
  function AddSlide(p: Presentation, t: SlideType, freshId: string, now: int): (r: Presentation)
    ensures |r.slides| == |p.slides| + 1
    ensures r.slides[..|p.slides|] == p.slides
    ensures var s := r.slides[|p.slides|];
      && s.id == freshId && s.slideType == t && s.order == |p.slides|
      && s.title == SlideLabel(|p.slides|) && s.background.None?
    ensures t == Title ==> (r.slides[|p.slides|].content ==
      EmptyContent.(title := Some("New Title"), subtitle := Some("Subtitle here")))
    ensures t != Title ==> (r.slides[|p.slides|].content ==
      EmptyContent.(title := Some("New Slide"), body := Some("Add your content here...")))
    ensures r == p.(slides := r.slides, updatedAt := now)
    ensures OrdersMatchIndex(p.slides) ==> OrdersMatchIndex(r.slides)
    ensures UniqueIds(p.slides) && !HasId(p.slides, freshId) ==> UniqueIds(r.slides)
  {
    var n := |p.slides|;
    var s := Slide(freshId, t, SlideLabel(n), NewSlideContent(t), None, n);
    var slides := p.slides + [s];
    assert slides[..n] == p.slides;
    p.(slides := slides, updatedAt := now)
  }

  // ---------------------------------------------------------------------------
  // updateSlide

  /** `Partial<Slide>`: each key is either absent (`None`) or given. */
  datatype SlidePatch = SlidePatch(
    id: Option<string>,
    slideType: Option<SlideType>,
    title: Option<string>,
    content: Option<SlideContent>,
    background: Option<string>,
    order: Option<int>)

  const EmptySlidePatch := SlidePatch(None, None, None, None, None, None)

  /** `{ ...slide, ...updates }`: a given key replaces the slide's field, the
      `content` record included, wholesale; an absent key keeps it. */
  function ApplySlidePatch(s: Slide, u: SlidePatch): (r: Slide)
    ensures r.id == (if u.id.Some? then u.id.value else s.id)
    ensures r.slideType == (if u.slideType.Some? then u.slideType.value else s.slideType)
    ensures r.title == (if u.title.Some? then u.title.value else s.title)
    ensures r.content == (if u.content.Some? then u.content.value else s.content)
    ensures r.background == (if u.background.Some? then u.background else s.background)
    ensures r.order == (if u.order.Some? then u.order.value else s.order)
  {
    Slide(
      if u.id.Some? then u.id.value else s.id,
      if u.slideType.Some? then u.slideType.value else s.slideType,
      if u.title.Some? then u.title.value else s.title,
      if u.content.Some? then u.content.value else s.content,
      if u.background.Some? then u.background else s.background,
      if u.order.Some? then u.order.value else s.order)
  }

  /** Merging the empty patch changes nothing, and merging a patch twice is
      the same as merging it once. */
  lemma ApplySlidePatchLaws(s: Slide, u: SlidePatch)
    ensures ApplySlidePatch(s, EmptySlidePatch) == s
    ensures ApplySlidePatch(ApplySlidePatch(s, u), u) == ApplySlidePatch(s, u)
  {
  }

  /** `updateSlide(id, updates)`: merges the patch into every slide with the
      id; an unknown id leaves the slides as they were. */
  function UpdateSlide(p: Presentation, id: string, u: SlidePatch, now: int): (r: Presentation)
    ensures |r.slides| == |p.slides|
    ensures forall i :: 0 <= i < |p.slides| && p.slides[i].id == id ==>
      r.slides[i] == ApplySlidePatch(p.slides[i], u)
    ensures forall i :: 0 <= i < |p.slides| && p.slides[i].id != id ==> r.slides[i] == p.slides[i]
    ensures !HasId(p.slides, id) ==> r.slides == p.slides
    ensures r == p.(slides := r.slides, updatedAt := now)
    ensures u.order.None? && OrdersMatchIndex(p.slides) ==> OrdersMatchIndex(r.slides)
    ensures u.id.None? && UniqueIds(p.slides) ==> UniqueIds(r.slides)
  {
    var slides := seq(|p.slides|, i requires 0 <= i < |p.slides| =>
      if p.slides[i].id == id then ApplySlidePatch(p.slides[i], u) else p.slides[i]);
    p.(slides := slides, updatedAt := now)
  }

  // ---------------------------------------------------------------------------
  // deleteSlide

  /** Positions of the slides whose id differs from `id`, in increasing order:
      an index-level description of which slides survive a delete. */
  function SurvivorIndices(slides: seq<Slide>, id: string): (ix: seq<nat>)
    ensures forall k :: 0 <= k < |ix| ==> ix[k] < |slides| && slides[ix[k]].id != id
    ensures forall k, l :: 0 <= k < l < |ix| ==> ix[k] < ix[l]
    ensures forall i :: 0 <= i < |slides| && slides[i].id != id ==> i in ix
    ensures |ix| <= |slides|
  {
    if |slides| == 0 then []
    else
      var n := |slides| - 1;
      var front := SurvivorIndices(slides[..n], id);
      assert forall k :: 0 <= k < |front| ==> slides[front[k]] == slides[..n][front[k]];
      if slides[n].id != id then front + [n] else front
  }

  /** `filter(slide => slide.id !== id)`. */
  function RemoveAll(slides: seq<Slide>, id: string): (r: seq<Slide>)
    ensures |r| <= |slides|
  {
    if |slides| == 0 then []
    else
      var n := |slides| - 1;
      var front := RemoveAll(slides[..n], id);
      if slides[n].id != id then front + [slides[n]] else front
  }

  /** The filter keeps exactly the slides at the survivor positions, in their
      old relative order. */
  lemma {:induction false} RemoveAllKeepsSurvivors(slides: seq<Slide>, id: string)
    ensures var r := RemoveAll(slides, id); var ix := SurvivorIndices(slides, id);
      |r| == |ix| && forall k :: 0 <= k < |r| ==> r[k] == slides[ix[k]]
    decreases |slides|
  {
    if |slides| > 0 {
      var n := |slides| - 1;
      var front := slides[..n];
      RemoveAllKeepsSurvivors(front, id);
      var rf := RemoveAll(front, id);
      var ixf := SurvivorIndices(front, id);
      var tail := if slides[n].id != id then [slides[n]] else [];
      var tailIx := if slides[n].id != id then [n] else [];
      assert RemoveAll(slides, id) == rf + tail;
      assert SurvivorIndices(slides, id) == ixf + tailIx;
      forall k | 0 <= k < |rf| + |tail|
        ensures (rf + tail)[k] == slides[(ixf + tailIx)[k]]
      {
        if k < |rf| {
          assert (rf + tail)[k] == rf[k] == front[ixf[k]];
          assert (ixf + tailIx)[k] == ixf[k];
        }
      }
    }
  }

  /** Filtering out an id no slide has changes nothing. */
  lemma {:induction false} RemoveAllAbsent(slides: seq<Slide>, id: string)
    requires !HasId(slides, id)
    ensures RemoveAll(slides, id) == slides
    decreases |slides|
  {
    if |slides| > 0 {
      var n := |slides| - 1;
      var front := slides[..n];
      assert !HasId(front, id) by {
        forall i | 0 <= i < n ensures front[i].id != id {
          assert front[i] == slides[i];
        }
      }
      RemoveAllAbsent(front, id);
      assert front + [slides[n]] == slides;
    }
  }

  /** `deleteSlide(id)`: the survivors, in their old relative order, each
      renumbered to its new position. */
  function DeleteSlide(p: Presentation, id: string, now: int): (r: Presentation)
    ensures var ix := SurvivorIndices(p.slides, id);
      |r.slides| == |ix| && forall k :: 0 <= k < |ix| ==> r.slides[k] == p.slides[ix[k]].(order := k)
    ensures !HasId(r.slides, id)
    ensures OrdersMatchIndex(r.slides)
    ensures !HasId(p.slides, id) && OrdersMatchIndex(p.slides) ==> r.slides == p.slides
    ensures r == p.(slides := r.slides, updatedAt := now)
  {
    RemoveAllKeepsSurvivors(p.slides, id);
    assert !HasId(p.slides, id) ==> RemoveAll(p.slides, id) == p.slides by {
      if !HasId(p.slides, id) { RemoveAllAbsent(p.slides, id); }
    }
    var slides := Renumber(RemoveAll(p.slides, id));
    p.(slides := slides, updatedAt := now)
  }

  /** With unique ids, removing the slide at `k` by its id leaves exactly the
      slides before and after it. */
  lemma {:induction false} RemoveAllUnique(slides: seq<Slide>, k: nat)
    requires UniqueIds(slides)
    requires k < |slides|
    ensures RemoveAll(slides, slides[k].id) == slides[..k] + slides[k + 1..]
    decreases |slides|
  {
    var id := slides[k].id;
    var n := |slides| - 1;
    var front := slides[..n];
    if k == n {
      assert !HasId(front, id) by {
        forall i | 0 <= i < n ensures front[i].id != id {
          assert front[i] == slides[i];
        }
      }
      RemoveAllAbsent(front, id);
      assert RemoveAll(slides, id) == RemoveAll(front, id);
      assert slides[..k] + slides[k + 1..] == front;
    } else {
      assert UniqueIds(front) by {
        forall i, j | 0 <= i < j < |front| ensures front[i].id != front[j].id {
          assert front[i] == slides[i] && front[j] == slides[j];
        }
      }
      assert front[k] == slides[k];
      RemoveAllUnique(front, k);
      assert slides[n].id != id;
      assert RemoveAll(slides, id) == RemoveAll(front, id) + [slides[n]];
      assert front[..k] == slides[..k];
      assert front[k + 1..] + [slides[n]] == slides[k + 1..];
    }
  }

  /** With unique ids, deleting a present slide shortens the list by one: the
      slides before it keep their positions and the ones after move up one. */
  lemma DeleteSlideUnique(p: Presentation, k: nat, now: int)
    requires UniqueIds(p.slides)
    requires k < |p.slides|
    ensures var r := DeleteSlide(p, p.slides[k].id, now);
      && |r.slides| == |p.slides| - 1
      && (forall i :: 0 <= i < k ==> r.slides[i] == p.slides[i].(order := i))
      && (forall i :: k <= i < |r.slides| ==> r.slides[i] == p.slides[i + 1].(order := i))
  {
    var id := p.slides[k].id;
    RemoveAllUnique(p.slides, k);
    var rest := p.slides[..k] + p.slides[k + 1..];
    assert forall i :: 0 <= i < k ==> rest[i] == p.slides[i];
    assert forall i :: k <= i < |rest| ==> rest[i] == p.slides[i + 1];
    assert DeleteSlide(p, id, now).slides == Renumber(rest);
  }

  /** With unique ids and an order-consistent list, deletion keeps the ids
      unique. */
  lemma DeleteSlideKeepsIdsUnique(p: Presentation, id: string, now: int)
    requires UniqueIds(p.slides)
    ensures UniqueIds(DeleteSlide(p, id, now).slides)
  {
    var r := DeleteSlide(p, id, now).slides;
    var ix := SurvivorIndices(p.slides, id);
    forall i, j | 0 <= i < j < |r| ensures r[i].id != r[j].id {
      assert r[i].id == p.slides[ix[i]].id && r[j].id == p.slides[ix[j]].id;
    }
  }

  // ---------------------------------------------------------------------------
  // Cursor after delete

  /** `findIndex` with its -1 for a miss. */
  function IndexOrMinusOne(slides: seq<Slide>, id: string): (r: int)
    ensures -1 <= r < |slides|
    ensures r == -1 <==> !HasId(slides, id)
    ensures 0 <= r ==> slides[r].id == id && forall j :: 0 <= j < r ==> slides[j].id != id
  {
    match FindIndex(slides, id)
    case None => -1
    case Some(k) => k
  }

  /** The current-slide index after deleting `id`, computed from the slide
      list as it was before the delete. With at least two slides and a valid
      cursor the result is a valid position in a list one shorter; deleting
      the only slide yields -1. */
  function CursorAfterDelete(oldSlides: seq<Slide>, cursor: int, id: string): (r: int)
    ensures |oldSlides| >= 2 && 0 <= cursor < |oldSlides| ==> 0 <= r <= |oldSlides| - 2
    ensures |oldSlides| == 1 && 0 <= cursor ==> r == -1
    ensures r == cursor || r == cursor - 1 || r == |oldSlides| - 2
  {
    var deleted := IndexOrMinusOne(oldSlides, id);
    if deleted == cursor && cursor > 0 then cursor - 1
    else if cursor >= |oldSlides| - 1 then |oldSlides| - 2
    else cursor
  }

  /** With unique ids, at least two slides and a present id, the cursor after a
      delete indexes the new list, and which old slide it shows depends on
      where the deleted slide `k` sat relative to the cursor:
      - after the cursor: the same slide;
      - at the cursor, not the first: the slide before it;
      - at the cursor, the first: the slide after it;
      - before the cursor, the cursor not last: the slide after the one shown,
        because the cursor keeps its number while the list shifts up;
      - before the cursor, the cursor last: the same slide. */
  lemma CursorAfterDeleteIsValid(p: Presentation, id: string, cursor: int, now: int)
    requires UniqueIds(p.slides) && |p.slides| >= 2 && HasId(p.slides, id)
    requires 0 <= cursor < |p.slides|
    ensures var r := DeleteSlide(p, id, now).slides;
      var c := CursorAfterDelete(p.slides, cursor, id);
      var k := IndexOrMinusOne(p.slides, id);
      && 0 <= c < |r|
      && (k > cursor ==> Unnumbered(r[c]) == Unnumbered(p.slides[cursor]))
      && (k == cursor && cursor > 0 ==> Unnumbered(r[c]) == Unnumbered(p.slides[cursor - 1]))
      && (k == cursor == 0 ==> Unnumbered(r[c]) == Unnumbered(p.slides[1]))
      && (0 <= k < cursor < |p.slides| - 1 ==> Unnumbered(r[c]) == Unnumbered(p.slides[cursor + 1]))
      && (0 <= k < cursor == |p.slides| - 1 ==> Unnumbered(r[c]) == Unnumbered(p.slides[cursor]))
  {
    var k := FindIndex(p.slides, id).value;
    DeleteSlideUnique(p, k, now);
  }

  // ---------------------------------------------------------------------------
  // duplicateSlide

  /** The copy `duplicateSlide` makes of `s`: same type, content and
      background, a fresh id and the title with " (Copy)" appended. */
  function CopyOf(s: Slide, freshId: string, order: int): Slide {
    s.(id := freshId, title := s.title + " (Copy)", order := order)
  }

  /** `duplicateSlide(id)`: inserts a copy right after the first slide with
      the id and renumbers; an unknown id returns the snapshot untouched,
      `updatedAt` included. */
  function DuplicateSlide(p: Presentation, id: string, freshId: string, now: int): (r: Presentation)
    ensures !HasId(p.slides, id) ==> r == p
    ensures HasId(p.slides, id) ==>
      var k := FindIndex(p.slides, id).value;
      var orig := p.slides[k];
      && |r.slides| == |p.slides| + 1
      && OrdersMatchIndex(r.slides)
      && (forall i :: 0 <= i <= k ==> r.slides[i] == p.slides[i].(order := i))
      && r.slides[k + 1].id == freshId
      && r.slides[k + 1].title == orig.title + " (Copy)"
      && r.slides[k + 1].slideType == orig.slideType
      && r.slides[k + 1].content == orig.content
      && r.slides[k + 1].background == orig.background
      && (forall i :: k + 1 < i < |r.slides| ==> r.slides[i] == p.slides[i - 1].(order := i))
      && r == p.(slides := r.slides, updatedAt := now)
    ensures OrdersMatchIndex(p.slides) ==> OrdersMatchIndex(r.slides)
  {
    match FindIndex(p.slides, id)
    case None => p
    case Some(k) =>
      var orig := p.slides[k];
      var inserted := p.slides[..k + 1] + [CopyOf(orig, freshId, k + 1)] + p.slides[k + 1..];
      assert forall i :: 0 <= i <= k ==> inserted[i] == p.slides[i];
      assert forall i :: k + 1 < i < |inserted| ==> inserted[i] == p.slides[i - 1];
      p.(slides := Renumber(inserted), updatedAt := now)
  }

  /** A duplicate made with an id no slide has keeps the ids unique. */
  lemma DuplicateSlideKeepsIdsUnique(p: Presentation, id: string, freshId: string, now: int)
    requires UniqueIds(p.slides) && !HasId(p.slides, freshId)
    ensures UniqueIds(DuplicateSlide(p, id, freshId, now).slides)
  {
    if HasId(p.slides, id) {
      var r := DuplicateSlide(p, id, freshId, now).slides;
      var k := FindIndex(p.slides, id).value;
      forall i, j | 0 <= i < j < |r| ensures r[i].id != r[j].id {
        if i == k + 1 {
          assert r[j].id == p.slides[j - 1].id;
        } else if j == k + 1 {
          assert r[i].id == p.slides[i].id;
        } else if j <= k {
          assert r[i].id == p.slides[i].id && r[j].id == p.slides[j].id;
        } else if i <= k {
          assert r[i].id == p.slides[i].id && r[j].id == p.slides[j - 1].id;
        } else {
          assert r[i].id == p.slides[i - 1].id && r[j].id == p.slides[j - 1].id;
        }
      }
    }
  }

  // ---------------------------------------------------------------------------
  // reorderSlides

  /** Where the element now at position `i` stood before moving the element
      at `from` to `to` (remove, then insert). */
  function MovedFrom(from: nat, to: nat, i: nat): nat {
    if i == to then from
    else if from < to && from <= i < to then i + 1
    else if to < from && to < i <= from then i - 1
    else i
  }

  /** The two `splice` calls of `reorderSlides`: remove the element at `from`,
      then insert it at `to`. */
  function Move<T>(s: seq<T>, from: nat, to: nat): seq<T>
    requires from < |s| && to < |s|
  {
    var rest := s[..from] + s[from + 1..];
    rest[..to] + [s[from]] + rest[to..]
  }

  /** Position by position, a move is described by `MovedFrom`. */
  lemma MoveIndices<T>(s: seq<T>, from: nat, to: nat)
    requires from < |s| && to < |s|
    ensures |Move(s, from, to)| == |s|
    ensures forall i :: 0 <= i < |s| ==>
      MovedFrom(from, to, i) < |s| && Move(s, from, to)[i] == s[MovedFrom(from, to, i)]
  {
    var rest := s[..from] + s[from + 1..];
    var m := Move(s, from, to);
    assert forall j :: 0 <= j < |rest| ==> rest[j] == (if j < from then s[j] else s[j + 1]);
    assert forall i :: 0 <= i < |m| ==>
      m[i] == (if i < to then rest[i] else if i == to then s[from] else rest[i - 1]);
  }

  /** A move is a permutation. */
  lemma MovePermutes<T>(s: seq<T>, from: nat, to: nat)
    requires from < |s| && to < |s|
    ensures multiset(Move(s, from, to)) == multiset(s)
  {
    var rest := s[..from] + s[from + 1..];
    assert s == s[..from] + [s[from]] + s[from + 1..];
    assert multiset(s) == multiset(rest) + multiset{s[from]};
    assert rest == rest[..to] + rest[to..];
    assert multiset(rest) == multiset(rest[..to]) + multiset(rest[to..]);
    assert Move(s, from, to) == rest[..to] + [s[from]] + rest[to..];
  }

  /** `reorderSlides(from, to)` for positions inside the list (the source does
      no bounds check; out-of-range positions make `splice` insert
      `undefined`): the moved slide lands at `to`, the slides between shift
      by one, every other slide stays, and all are renumbered. The result is a
      permutation of the old slides up to their `order` fields. */
  function ReorderSlides(p: Presentation, from: nat, to: nat, now: int): (r: Presentation)
    requires from < |p.slides| && to < |p.slides|
    ensures |r.slides| == |p.slides|
    ensures OrdersMatchIndex(r.slides)
    ensures r.slides[to] == p.slides[from].(order := to)
    ensures forall i :: 0 <= i < |r.slides| ==>
      MovedFrom(from, to, i) < |p.slides| && r.slides[i] == p.slides[MovedFrom(from, to, i)].(order := i)
    ensures multiset(UnnumberedAll(r.slides)) == multiset(UnnumberedAll(p.slides))
    ensures r == p.(slides := r.slides, updatedAt := now)
  {
    var s := p.slides;
    var moved := Move(s, from, to);
    MoveIndices(s, from, to);
    var u := UnnumberedAll(s);
    MoveIndices(u, from, to);
    MovePermutes(u, from, to);
    var r := Renumber(moved);
    assert UnnumberedAll(r) == Move(u, from, to);
    p.(slides := r, updatedAt := now)
  }

  /** Reordering keeps the ids unique. */
  lemma ReorderSlidesKeepsIdsUnique(p: Presentation, from: nat, to: nat, now: int)
    requires from < |p.slides| && to < |p.slides|
    requires UniqueIds(p.slides)
    ensures UniqueIds(ReorderSlides(p, from, to, now).slides)
  {
    var r := ReorderSlides(p, from, to, now).slides;
    forall i, j | 0 <= i < j < |r| ensures r[i].id != r[j].id {
      assert r[i].id == p.slides[MovedFrom(from, to, i)].id;
      assert r[j].id == p.slides[MovedFrom(from, to, j)].id;
      assert MovedFrom(from, to, i) != MovedFrom(from, to, j);
    }
  }

  // ---------------------------------------------------------------------------
  // updateBrandSettings and updatePresentationMeta

  /** `Partial<BrandSettings>`. */
  datatype BrandPatch = BrandPatch(
    primaryColor: Option<string>,
    secondaryColor: Option<string>,
    accentColor: Option<string>,
    fontFamily: Option<string>,
    logoUrl: Option<string>,
    logoPosition: Option<LogoPosition>)

  const EmptyBrandPatch := BrandPatch(None, None, None, None, None, None)

  function Pick<T>(given: Option<T>, current: T): T {
    if given.Some? then given.value else current
  }

  /** `{ ...brandSettings, ...updates }`. */
  function ApplyBrandPatch(b: BrandSettings, u: BrandPatch): BrandSettings {
    BrandSettings(
      Pick(u.primaryColor, b.primaryColor),
      Pick(u.secondaryColor, b.secondaryColor),
      Pick(u.accentColor, b.accentColor),
      Pick(u.fontFamily, b.fontFamily),
      if u.logoUrl.Some? then u.logoUrl else b.logoUrl,
      Pick(u.logoPosition, b.logoPosition))
  }

  /** `updateBrandSettings(updates)`: given keys replace the brand fields,
      absent keys keep them; slides, title and the rest are untouched. */
  function UpdateBrandSettings(p: Presentation, u: BrandPatch, now: int): (r: Presentation)
    ensures r.slides == p.slides && r.title == p.title && r.description == p.description
    ensures r.id == p.id && r.createdAt == p.createdAt && r.updatedAt == now
    ensures u.primaryColor.Some? ==> r.brandSettings.primaryColor == u.primaryColor.value
    ensures u.primaryColor.None? ==> r.brandSettings.primaryColor == p.brandSettings.primaryColor
    ensures u.secondaryColor.Some? ==> r.brandSettings.secondaryColor == u.secondaryColor.value
    ensures u.secondaryColor.None? ==> r.brandSettings.secondaryColor == p.brandSettings.secondaryColor
    ensures u.accentColor.Some? ==> r.brandSettings.accentColor == u.accentColor.value
    ensures u.accentColor.None? ==> r.brandSettings.accentColor == p.brandSettings.accentColor
    ensures u.fontFamily.Some? ==> r.brandSettings.fontFamily == u.fontFamily.value
    ensures u.fontFamily.None? ==> r.brandSettings.fontFamily == p.brandSettings.fontFamily
    ensures u.logoUrl.Some? ==> r.brandSettings.logoUrl == u.logoUrl
    ensures u.logoUrl.None? ==> r.brandSettings.logoUrl == p.brandSettings.logoUrl
    ensures u.logoPosition.Some? ==> r.brandSettings.logoPosition == u.logoPosition.value
    ensures u.logoPosition.None? ==> r.brandSettings.logoPosition == p.brandSettings.logoPosition
    ensures u == EmptyBrandPatch ==> r == p.(updatedAt := now)
  {
    p.(brandSettings := ApplyBrandPatch(p.brandSettings, u), updatedAt := now)
  }

  /** The partial metadata `updatePresentationMeta` accepts. */
  datatype MetaPatch = MetaPatch(title: Option<string>, description: Option<string>)

  /** `updatePresentationMeta(updates)`: a given title or description replaces
      the current one; slides and brand are untouched. */
  function UpdatePresentationMeta(p: Presentation, u: MetaPatch, now: int): (r: Presentation)
    ensures r.title == (if u.title.Some? then u.title.value else p.title)
    ensures r.description == (if u.description.Some? then u.description else p.description)
    ensures r.slides == p.slides && r.brandSettings == p.brandSettings
    ensures r.id == p.id && r.createdAt == p.createdAt && r.updatedAt == now
  {
    p.(title := Pick(u.title, p.title),
       description := if u.description.Some? then u.description else p.description,
       updatedAt := now)
  }

  // ---------------------------------------------------------------------------
  // Runs of structural edits

  /** One structural edit, with the clock reading and fresh id it uses. */
  datatype Edit =
    | Add(slideType: SlideType, freshId: string, now: int)
    | Delete(id: string, now: int)
    | Duplicate(id: string, freshId: string, now: int)
    | Reorder(from: nat, to: nat, now: int)
    | Update(id: string, patch: SlidePatch, now: int)

  /** An edit the editor can issue: reorders stay inside the list and slide
      updates never patch `order` (no caller passes it). */
  predicate Allowed(p: Presentation, e: Edit) {
    match e
    case Reorder(from, to, _) => from < |p.slides| && to < |p.slides|
    case Update(_, u, _) => u.order.None?
    case _ => true
  }

  function ApplyEdit(p: Presentation, e: Edit): Presentation
    requires Allowed(p, e)
  {
    match e
    case Add(t, newId, now) => AddSlide(p, t, newId, now)
    case Delete(id, now) => DeleteSlide(p, id, now)
    case Duplicate(id, newId, now) => DuplicateSlide(p, id, newId, now)
    case Reorder(from, to, now) => ReorderSlides(p, from, to, now)
    case Update(id, u, now) => UpdateSlide(p, id, u, now)
  }

  predicate AllowedRun(p: Presentation, edits: seq<Edit>)
    decreases |edits|
  {
    |edits| == 0 || (Allowed(p, edits[0]) && AllowedRun(ApplyEdit(p, edits[0]), edits[1..]))
  }

  function ApplyEdits(p: Presentation, edits: seq<Edit>): Presentation
    requires AllowedRun(p, edits)
    decreases |edits|
  {
    if |edits| == 0 then p else ApplyEdits(ApplyEdit(p, edits[0]), edits[1..])
  }

  /** Every edit keeps each slide's `order` equal to its position. */
  lemma ApplyEditKeepsOrders(p: Presentation, e: Edit)
    requires Allowed(p, e) && OrdersMatchIndex(p.slides)
    ensures OrdersMatchIndex(ApplyEdit(p, e).slides)
  {
  }

  /** Starting from the initial document, any run of allowed edits leaves
      every slide's `order` equal to its position. */
  lemma {:induction false} EditsKeepOrders(p: Presentation, edits: seq<Edit>)
    requires OrdersMatchIndex(p.slides) && AllowedRun(p, edits)
    ensures OrdersMatchIndex(ApplyEdits(p, edits).slides)
    decreases |edits|
  {
    if |edits| > 0 {
      ApplyEditKeepsOrders(p, edits[0]);
      EditsKeepOrders(ApplyEdit(p, edits[0]), edits[1..]);
    }
  }

  lemma InitialThenEditsKeepOrders(slideId: string, createdAt: int, updatedAt: int, edits: seq<Edit>)
    requires AllowedRun(InitialPresentation(slideId, createdAt, updatedAt), edits)
    ensures OrdersMatchIndex(ApplyEdits(InitialPresentation(slideId, createdAt, updatedAt), edits).slides)
  {
    EditsKeepOrders(InitialPresentation(slideId, createdAt, updatedAt), edits);
  }
}
