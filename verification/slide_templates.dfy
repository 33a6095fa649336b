/**
 The static table of slide templates offered when adding a slide, and the
 navigator's icon lookup that searches it.
 */
module SlideTemplates {
  import opened JsStrings
  import opened PresentationTypes

  /** The generic page icon, also the navigator's fallback. */
  const PageIcon: string := "\U{1F4C4}"

  const Templates: seq<SlideTemplate> := [
    SlideTemplate("title", "Title Slide", Title, PageIcon,
      "Perfect for presentation opening with title and subtitle"),
    SlideTemplate("content", "Content Slide", Content, "\U{1F4DD}",
      "Standard slide with title and bullet points"),
    SlideTemplate("two-column", "Two Column", TwoColumn, "\U{1F4CA}",
      "Split content into two columns for comparison"),
    SlideTemplate("image-focus", "Image Focus", ImageFocus, "\U{1F5BC}\U{FE0F}",
      "Highlight images with minimal text overlay"),
    SlideTemplate("blank", "Blank Slide", Blank, "\U{2B1C}",
      "Start with a completely blank canvas")
  ]

  /** `slideTemplates.find(t => t.type === type)`: the first template of that type. */
  function FindTemplate(table: seq<SlideTemplate>, t: SlideType): (r: Option<SlideTemplate>)
    ensures r.Some? ==> r.value in table && r.value.slideType == t
    ensures r.None? <==> forall k :: 0 <= k < |table| ==> table[k].slideType != t
  {
    if |table| == 0 then None
    else if table[0].slideType == t then Some(table[0])
    else FindTemplate(table[1..], t)
  }

  /** The navigator's icon: the template's preview, or the page icon when no
      template is found or its preview is empty. */
  function SlideIcon(t: SlideType): string {
    var found := FindTemplate(Templates, t);
    if found.Some? && |found.value.preview| > 0 then found.value.preview else PageIcon
  }

  /** The table has five entries, in the order title, content, two-column,
      image-focus, blank, and each entry's id is the tag of its type. */
  lemma TemplatesShape()
    ensures |Templates| == 5
    ensures Templates[0].slideType == Title && Templates[1].slideType == Content
    ensures Templates[2].slideType == TwoColumn && Templates[3].slideType == ImageFocus
    ensures Templates[4].slideType == Blank
    ensures forall k :: 0 <= k < |Templates| ==> Templates[k].id == TypeName(Templates[k].slideType)
  {
  }

  /** The template types are pairwise distinct and cover every slide type. */
  lemma TemplatesCoverEveryTypeOnce(t: SlideType)
    ensures exists k :: 0 <= k < |Templates| && Templates[k].slideType == t
    ensures forall j, k :: 0 <= j < k < |Templates| ==> Templates[j].slideType != Templates[k].slideType
  {
    match t
    case Title => assert Templates[0].slideType == t;
    case Content => assert Templates[1].slideType == t;
    case TwoColumn => assert Templates[2].slideType == t;
    case ImageFocus => assert Templates[3].slideType == t;
    case Blank => assert Templates[4].slideType == t;
  }

  /** For every well-typed slide the lookup finds a template with a non-empty
      preview, so the navigator's fallback icon is never reached through the
      fallback branch. */
  lemma IconFallbackUnreachable(t: SlideType)
    ensures FindTemplate(Templates, t).Some?
    ensures |FindTemplate(Templates, t).value.preview| > 0
    ensures SlideIcon(t) == FindTemplate(Templates, t).value.preview
  {
    TemplatesCoverEveryTypeOnce(t);
    var found := FindTemplate(Templates, t);
    assert found.value in Templates;
  }
}
