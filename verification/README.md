# Presentation builder: editor state, export layout and export gate

A Dafny model of the core of a browser slide-deck editor. A **presentation** holds
a title, an optional description, brand settings (primary, secondary and accent
colour, font family, optional logo and its position) and an ordered list of
**slides**. Each slide has an id, one of five layout types (`title`, `content`,
`two-column`, `image-focus`, `blank`), a display title, up to seven optional
content fields, an optional background colour and an `order` number.

The model covers five parts of the program:

- **Editor state updates** (`mutations.dfy`). This is the hook that owns the
  document. It covers adding, updating, deleting, duplicating and reordering
  slides, patching brand settings and the title/description, and the rule that
  moves the current-slide cursor after a delete. Every updater is a pure
  function from the previous snapshot to the next one. The clock and the id
  generator are parameters.
- **PowerPoint export** (`ppt_export.dfy`). Each slide becomes a background and
  a list of text, bullet and image regions. The model covers the five layout
  routines, colour conversion (`hexToPptColor`), the background rule, the deck
  properties, the file-name rule and `convertSlideContent`. Whether an image
  embeds or throws is an input.
- **Export validation** (`export_validation.dfy`). It builds the list of
  user-facing messages in the order the source produces them. An independent
  readiness predicate says which documents are exportable. The gate exports only
  a document with no messages.
- **The slide-template table** (`slide_templates.dfy`), and the navigator icon
  lookup that relies on it.
- **The editing canvas** (`slide_canvas.dfy`). It covers the clamped zoom
  buttons, the one-field content edit, and the canvas background fallback.

Two support files hold shared definitions:

- `js_strings.dfy` holds the string behaviour the source relies on: truthiness
  of optional strings, `||` fallbacks, `trim`, `replace` with a string pattern,
  `split`, ASCII lower-casing and decimal printing.
- `presentation_types.dfy` holds the data types.

Geometry is kept in thousandths of an inch, so the 10 x 5.625 inch layout is
10000 x 5625.

Three behaviours of the source are easy to misread:

- The body of a content slide is split on the two characters backslash and `n`
  (the source writes `'\\n'`), not on line breaks. A real line feed leaves the
  body as one paragraph; `PptExport.BodyLineFeedExample` shows this.
- `hexToPptColor` removes the first `#` wherever it is, not every `#`: a
  leading `#` goes, but `##` becomes `#`.
- The delete cursor rule reads the slide list from before the delete. It keeps
  the cursor's number when an earlier slide is deleted, so the view moves on to
  the slide after the one that was shown (`Mutations.CursorAfterDeleteIsValid`).

## Model

| member | source | states |
|---|---|---|
| `Mutations.CreateDefaultSlide` | src/hooks/usePresentation.ts:12-21 | The default slide is a title slide at the given order, labelled "Slide n+1", with the welcome title and subtitle and no other content. |
| `Mutations.InitialPresentation` | src/hooks/usePresentation.ts:4-33 | The starting document has one title slide, "Slide 1", at order 0, with unique ids and orders matching positions. It is titled "My Presentation" with no description. Its brand colours are #6366F1, #F59E0B and #10B981, its font is Inter, and it has no logo image and the logo position top-right. |
| `Mutations.FindIndex` | src/hooks/usePresentation.ts:87-88 | `findIndex` returns the first position holding the id, and none exactly when no slide has it. |
| `Mutations.Renumber` | src/hooks/usePresentation.ts:70 | Renumbering sets each slide's order to its position and changes nothing else; an already numbered list is returned unchanged. |
| `Mutations.AddSlide` | src/hooks/usePresentation.ts:35-53 | Appends exactly one slide: the old slides stay as a prefix; the new one has the fresh id, the requested type, the next label, order = old length, and per-type default content. Orders matching positions, and unique ids given a fresh id, are preserved. |
| `Mutations.ApplySlidePatch` | src/hooks/usePresentation.ts:59 | Each key present in the partial slide replaces that property; absent keys keep it. |
| `Mutations.ApplySlidePatchLaws` | src/hooks/usePresentation.ts:59 | An empty patch changes nothing, and applying a patch twice is the same as applying it once. |
| `Mutations.UpdateSlide` | src/hooks/usePresentation.ts:55-63 | Patches every slide with the id and leaves every other slide, the length and the rest of the document unchanged. An unknown id changes only `updatedAt`. Orders and unique ids are preserved when the patch does not touch them. |
| `Mutations.SurvivorIndices` | src/hooks/usePresentation.ts:67 | The positions of the slides without the id are strictly increasing, and every such position is included. |
| `Mutations.RemoveAllKeepsSurvivors` | src/hooks/usePresentation.ts:67 | The filter keeps exactly the surviving slides, in their original order. |
| `Mutations.RemoveAllAbsent` | src/hooks/usePresentation.ts:67 | Filtering out an id no slide has returns the list unchanged. |
| `Mutations.RemoveAllUnique` | src/hooks/usePresentation.ts:67 | With unique ids, removing slide k's id removes exactly slide k. |
| `Mutations.DeleteSlide` | src/hooks/usePresentation.ts:65-73 | The result is the surviving slides, in order, renumbered 0..n-1, with no slide carrying the id. Deleting an absent id from a numbered list leaves the slides unchanged. |
| `Mutations.DeleteSlideUnique` | src/hooks/usePresentation.ts:65-73 | With unique ids, deleting slide k shortens the list by one and shifts later slides down one position, renumbered. |
| `Mutations.DeleteSlideKeepsIdsUnique` | src/hooks/usePresentation.ts:65-73 | Deleting keeps ids unique. |
| `Mutations.IndexOrMinusOne` | src/hooks/usePresentation.ts:77 | `findIndex` returns -1 exactly when no slide has the id. Otherwise it returns the first position whose slide has the id. |
| `Mutations.CursorAfterDelete` | src/hooks/usePresentation.ts:76-82 | The new cursor is the old cursor, one less, or the last position of the shorter list. With two or more slides it lies within the shorter list. With one slide it becomes -1. |
| `Mutations.CursorAfterDeleteIsValid` | src/hooks/usePresentation.ts:65-82 | After deleting a present slide from a list of two or more, the cursor indexes a slide of the new list. If the deleted slide was after the cursor, the same slide stays shown. Deleting the shown slide shows the one before it, or the next one when it was first. Deleting an earlier slide shows the slide after the one that was shown, unless that one was last. |
| `Mutations.DuplicateSlide` | src/hooks/usePresentation.ts:85-107 | An unknown id returns the snapshot itself. Otherwise a copy with the fresh id, "(Copy)" title and the same type, content and background is inserted right after the original, the others keep their relative order, and all are renumbered. |
| `Mutations.DuplicateSlideKeepsIdsUnique` | src/hooks/usePresentation.ts:85-107 | Duplicating with a fresh id keeps ids unique. |
| `Mutations.MoveIndices` | src/hooks/usePresentation.ts:111-113 | Removing at `from` and inserting at `to` puts the moved element at `to` and shifts the elements in between by one position, all explicitly indexed. |
| `Mutations.MovePermutes` | src/hooks/usePresentation.ts:111-113 | The two splices permute the list. |
| `Mutations.ReorderSlides` | src/hooks/usePresentation.ts:109-121 | The moved slide lands at `to`, every slide is where the splice puts it, orders are renumbered, and the slides (ignoring order) are a permutation of the old ones. |
| `Mutations.ReorderSlidesKeepsIdsUnique` | src/hooks/usePresentation.ts:109-121 | Reordering keeps ids unique. |
| `Mutations.UpdateBrandSettings` | src/hooks/usePresentation.ts:123-129 | Each given brand key replaces its field and each absent key keeps it. Slides, title and description are untouched, and an empty patch changes only `updatedAt`. |
| `Mutations.UpdatePresentationMeta` | src/hooks/usePresentation.ts:131-137 | A given title or description replaces the old one. Slides, brand settings, id and creation time are untouched. |
| `Mutations.ApplyEditKeepsOrders` | src/hooks/usePresentation.ts:35-137 | Every slide updater (add, update, delete, duplicate, reorder) keeps "order equals position", provided a slide patch does not set `order`. |
| `Mutations.EditsKeepOrders` | src/hooks/usePresentation.ts:35-137 | Any run of such edits keeps "order equals position". |
| `Mutations.InitialThenEditsKeepOrders` | src/hooks/usePresentation.ts:24-137 | Starting from the initial document, "order equals position" holds after any run of edits. |
| `PptExport.HexToPptColor` | src/utils/pptExport.ts:5-7 | A colour without `#` is returned as is; with one, the result is one character shorter. |
| `PptExport.HexToPptColorDropsOneHash` | src/utils/pptExport.ts:5-7 | The conversion removes exactly one `#` and keeps every other character. |
| `PptExport.HexToPptColorStripsLeadingHash` | src/utils/pptExport.ts:5-7 | `#` followed by digits converts to the digits. |
| `PptExport.HexToPptColorKeepsSecondHash` | src/utils/pptExport.ts:5-7 | Only the first `#` goes: `##` converts to `#`. |
| `PptExport.PlaceholderTextColorIsConverted` | src/utils/pptExport.ts:164 | The placeholder text colour is the conversion of `#999999`. |
| `PptExport.PlaceholderBorderColorIsConverted` | src/utils/pptExport.ts:167 | The placeholder border colour is the conversion of `#CCCCCC`. |
| `PptExport.NonBlankSegments` | src/utils/pptExport.ts:59 | The filter never adds segments; what it keeps is stated by the lemmas below. |
| `PptExport.NonBlankSegmentsSound` | src/utils/pptExport.ts:59 | Every kept segment is non-blank and comes from the input. |
| `PptExport.NonBlankSegmentsComplete` | src/utils/pptExport.ts:59 | Every non-blank input segment is kept. |
| `PptExport.NonBlankSegmentsOfNonBlank` | src/utils/pptExport.ts:59 | With no blank segment the filter keeps the list unchanged. |
| `PptExport.NonBlankIndices` | src/utils/pptExport.ts:59 | The positions of the non-blank segments, listed in strictly increasing order, each exactly once: every listed position holds a non-blank segment and every non-blank segment's position is listed. |
| `PptExport.NonBlankSegmentsSelect` | src/utils/pptExport.ts:59 | The filter returns exactly the segments at those positions, in that order: bullets keep the order and repetitions of the body's lines. |
| `PptExport.TrimAll` | src/utils/pptExport.ts:63 | Each bullet item is a contiguous piece of its segment. For a non-blank segment it is non-empty and neither starts nor ends with whitespace. It contains the separator only if its segment does. |
| `PptExport.SlideRegions` | src/utils/pptExport.ts:212-230 | Every layout adds at most three regions, and a blank slide at most one. What each layout adds is stated by the five layout lemmas below. |
| `PptExport.SlideBackground` | src/utils/pptExport.ts:207-210 | A background is filled exactly when the slide's colour is non-empty and not `white`; the fill is that colour converted. |
| `PptExport.TitleSlideLayout` | src/utils/pptExport.ts:9-38 | Whatever the image outcome, a title slide shows the main title exactly when its content title is truthy (44pt, bold, centred, primary colour or black). The subtitle follows exactly when it is truthy (24pt, secondary colour or grey). All text is in the brand font or Arial. |
| `PptExport.ContentSlideLayout` | src/utils/pptExport.ts:40-86 | A content slide shows the 32pt bold heading in the primary colour exactly when its content title is truthy. Then it shows the body regions exactly when the body is truthy. |
| `PptExport.TwoColumnLayout` | src/utils/pptExport.ts:88-128 | A two-column slide shows the heading exactly when its content title is truthy. Then it shows the left column at x 0.5 and the right column at x 5.25, each 4.25 wide, 18pt in the secondary colour, each exactly when it is truthy, in that order. |
| `PptExport.ContentBodyLayout` | src/utils/pptExport.ts:55-85 | The body is a bullet list exactly when it has more than one non-blank segment; the items are those segments, trimmed, none containing the separator. Otherwise the body is one paragraph holding the whole text. |
| `PptExport.BulletItems` | src/utils/pptExport.ts:59-63 | With several segments, each item is its segment trimmed, non-empty, and free of the separator. |
| `PptExport.SeveralSegmentsNotBlank` | src/utils/pptExport.ts:56-59 | A body with several non-blank segments is not blank. |
| `PptExport.SplitWithoutSeparator` | src/utils/pptExport.ts:59 | A body without the backslash-n pair splits into a single segment. |
| `PptExport.SplitThreeSegments` | src/utils/pptExport.ts:59 | `a\nb\nc`, with literal backslash-n, splits into `a`, `b`, `c`. |
| `PptExport.SplitKeepsLineFeed` | src/utils/pptExport.ts:59 | A real line feed does not split. |
| `PptExport.BodyBulletExample` | src/utils/pptExport.ts:59-73 | Three segments joined by backslash-n become three bullets. |
| `PptExport.LettersAreKept` | src/utils/pptExport.ts:59-63 | One-letter segments pass the filter and trim to themselves. |
| `PptExport.BodyLineFeedExample` | src/utils/pptExport.ts:59-84 | A body with a real line feed stays one paragraph. |
| `PptExport.ImageFocusLayout` | src/utils/pptExport.ts:130-185 | The heading appears exactly when the content title is truthy, followed by one more region. A truthy URL gives the picture at (2, 2, 6, 4) when embedding succeeds. When embedding throws, the last region is the "Image: alt" placeholder. Without a URL it is the "Image Placeholder" placeholder. Both placeholders are 16pt, centred both ways, in the brand font, with text colour and a 1pt border converted from #999999 and #CCCCCC, in the image box. |
| `PptExport.BlankSlideLayout` | src/utils/pptExport.ts:187-201 | A blank slide shows its display title exactly when the title is not blank, and nothing otherwise. The title is the 32pt bold heading at (0.5, 0.5, 9, 1) in the primary colour (or black) and the brand font. |
| `PptExport.HasImageAppend` | src/utils/pptExport.ts:204-230 | Concatenated region lists contain a picture exactly when one part does. |
| `PptExport.AllWellPlacedAppend` | src/utils/pptExport.ts:204-230 | Concatenated region lists are well placed exactly when both parts are. |
| `PptExport.RegionsAppend` | src/utils/pptExport.ts:204-230 | Both append facts together. |
| `PptExport.OptionalHeadingFacts` | src/utils/pptExport.ts:42-53 | The 32pt heading is text within the canvas width, in the brand font. |
| `PptExport.TitlePlacement` | src/utils/pptExport.ts:9-38 | A title slide has no picture and every region fits the width in the brand font. |
| `PptExport.BodyPlacement` | src/utils/pptExport.ts:55-85 | The body regions have no picture, fit the width and use the brand font. |
| `PptExport.ContentPlacement` | src/utils/pptExport.ts:40-86 | A content slide has no picture, fits the width and uses the brand font. |
| `PptExport.ColumnPlacement` | src/utils/pptExport.ts:103-127 | A column inside the width is text in the brand font. |
| `PptExport.TwoColumnPlacement` | src/utils/pptExport.ts:88-128 | A two-column slide has no picture, fits the width and uses the brand font. |
| `PptExport.ImageFocusPlacement` | src/utils/pptExport.ts:130-185 | An image-focus slide has a picture exactly when the URL is truthy and embedding succeeds, and everything fits the width. |
| `PptExport.RegionsPlacement` | src/utils/pptExport.ts:204-230 | Over all layouts, a slide carries a picture exactly when it is an image-focus slide with a truthy URL that embeds. Every region lies within the 10-inch width, and all text uses the brand font or Arial. |
| `PptExport.FileStem` | src/utils/pptExport.ts:257 | The stem has the title's length. Every ASCII letter or digit becomes its lower-case form, every other character becomes `_`, so the stem uses only `a-z`, `0-9` and `_`. |
| `PptExport.ExportFileName` | src/utils/pptExport.ts:257 | The file name is the stem followed by `.pptx`. |
| `PptExport.FileStemIdempotent` | src/utils/pptExport.ts:257 | Applying the file-name rule to a stem changes nothing. |
| `PptExport.ExportDeck` | src/utils/pptExport.ts:234-259 | The deck is authored "Presentation Builder" for "Blink". It has the document title, the description or the default subject, and the 10 x 5.625 layout. It has one slide per document slide in order, each built by the template dispatch, and the derived file name. |
| `PptExport.ImageFailureIsLocal` | src/utils/pptExport.ts:145-169 | A failing image changes only its own slide's regions, not their number; other slides, the background, the properties and the file name are unaffected. |
| `PptExport.ConvertSlideContent` | src/utils/pptExport.ts:269-329 | The converted slide keeps title, type and background, names the layout per type, and lists exactly the type's fields, each the content value or `''`. |
| `PptExport.ConvertedTitleMatchesHeading` | src/utils/pptExport.ts:269-295 | For every non-blank layout, the converted title is non-empty exactly when the exported slide opens with a bold heading showing that text. |
| `ExportValidation.SlideErrors` | src/utils/pptExport.ts:343-351 | A slide produces the missing-title message exactly when its display title is blank, and the missing-main-title message exactly when it is a title slide whose content title is falsy. When both apply the missing-title message comes first. It produces no other message, and none exactly when it is ready. |
| `ExportValidation.SlidesErrors` | src/utils/pptExport.ts:343-351 | The per-slide messages are empty exactly when every slide is ready, number at most two per slide, and are all slide messages. Their count is the count for the earlier slides plus the last slide's. |
| `ExportValidation.SlidesErrorsAt` | src/utils/pptExport.ts:343-351 | Slide i's messages sit in the full list right after the messages of slides 0..i-1. The last slide's messages end the list, so the list is every slide's messages in index order and nothing else. |
| `ExportValidation.AllSlidesReadySplit` | src/utils/pptExport.ts:343 | Every slide is ready exactly when all but the last are and the last is. |
| `ExportValidation.SlidesErrorsPrefix` | src/utils/pptExport.ts:343-351 | Messages of earlier slides precede those of later ones. |
| `ExportValidation.SlidesErrorsStep` | src/utils/pptExport.ts:343-351 | Adding a slide only appends messages. |
| `ExportValidation.DocumentErrors` | src/utils/pptExport.ts:335-341 | The title message appears exactly when the title is blank, and comes first. The no-slides message appears exactly when there are no slides. There are no other messages. |
| `ExportValidation.ValidatePresentationForExport` | src/utils/pptExport.ts:332-354 | The list is the document-level messages followed by the per-slide messages. It is empty exactly when the document is ready. The title message comes first, and an empty deck gives exactly the document messages. |
| `ExportValidation.DocumentMessagesReported` | src/utils/pptExport.ts:335-341 | Each document-level message appears in the full list exactly when its condition holds. |
| `ExportValidation.NotASlideMessage` | src/utils/pptExport.ts:343-351 | No slide produces a document-level message. |
| `ExportValidation.NatToStringOne` | src/utils/pptExport.ts:345 | Position 1 prints as "1". |
| `ExportValidation.EmptyDocumentMessages` | src/utils/pptExport.ts:332-354 | An untitled empty document yields the two document messages in source order. |
| `ExportValidation.MissingMainTitleOne` | src/utils/pptExport.ts:349 | The message text for position 1. |
| `ExportValidation.MissingMainTitleMessage` | src/utils/pptExport.ts:332-354 | A titled one-slide deck whose title slide has no main title, or an empty one, yields exactly that one message. |
| `ExportValidation.SlideLabelNotBlank` | src/hooks/usePresentation.ts:40 | Generated slide labels are never blank. |
| `ExportValidation.InitialPresentationIsReady` | src/hooks/usePresentation.ts:24-31 | The starting document passes validation. |
| `ExportValidation.AddSlideKeepsReady` | src/hooks/usePresentation.ts:35-53 | Adding a slide keeps a valid document valid. |
| `ExportValidation.DuplicateSlideKeepsReady` | src/hooks/usePresentation.ts:85-107 | Duplicating keeps a valid document valid. |
| `ExportValidation.ReorderSlidesKeepsReady` | src/hooks/usePresentation.ts:109-121 | Reordering keeps a valid document valid. |
| `ExportValidation.DeleteSlideKeepsReady` | src/hooks/usePresentation.ts:65-73 | Deleting keeps a valid document valid while a slide remains. |
| `ExportValidation.UpdateSlideKeepsReady` | src/hooks/usePresentation.ts:55-63 | An update keeps a valid document valid when the patched slides are ready. |
| `ExportValidation.SettingsKeepReady` | src/hooks/usePresentation.ts:123-137 | Brand changes keep validity. A metadata change keeps it exactly when it does not set a blank title. |
| `ExportValidation.ExportIfValid` | src/App.tsx:27-45 | The export is refused exactly when the document is not ready, with the non-empty validation messages. Otherwise the exported deck is the document's deck and has at least one slide. |
| `SlideTemplates.FindTemplate` | src/components/SlideNavigator.tsx:27-30 | `find` returns a template of the requested type from the table, and none exactly when the table has no such type. |
| `SlideTemplates.TemplatesShape` | src/data/slideTemplates.ts:3-39 | The table lists five templates in order title, content, two-column, image-focus, blank, each with the type's name as id. |
| `SlideTemplates.TemplatesCoverEveryTypeOnce` | src/data/slideTemplates.ts:3-39 | Every slide type has exactly one template. |
| `SlideTemplates.IconFallbackUnreachable` | src/components/SlideNavigator.tsx:27-30 | Every type finds its template and a non-empty preview, so the navigator's fallback icon is never used. |
| `PresentationTypes.TypeNameInjective` | src/types/presentation.ts:3 | The five type tags are pairwise distinct, so a tag names exactly one layout. |
| `SlideCanvas.ZoomIn` | src/components/SlideCanvas.tsx:24 | Zooming in adds one step, but never past 200. |
| `SlideCanvas.ZoomOut` | src/components/SlideCanvas.tsx:25 | Zooming out removes one step, but never below 50. |
| `SlideCanvas.PressKeepsValid` | src/components/SlideCanvas.tsx:24-25 | One press keeps the zoom within 50..200 and on a multiple of 25. |
| `SlideCanvas.PressesKeepValid` | src/components/SlideCanvas.tsx:24-25 | Any run of presses keeps the zoom valid. |
| `SlideCanvas.ZoomFromStartStaysValid` | src/components/SlideCanvas.tsx:20-25 | From the initial 100%, the zoom always stays in 50..200 on a multiple of 25. |
| `SlideCanvas.PressMovesOneStep` | src/components/SlideCanvas.tsx:278-290 | An enabled button moves exactly one step. A disabled one would change nothing: the clamps are idempotent at 50 and 200, which lines 279 and 290 disable. |
| `SlideCanvas.ZoomInOutUndo` | src/components/SlideCanvas.tsx:24-25 | An enabled press is undone by the opposite press. |
| `SlideCanvas.SetField` | src/components/SlideCanvas.tsx:29-32 | The edited field takes the value and every other field keeps its value. |
| `SlideCanvas.ContentExtensional` | src/types/presentation.ts:5-13 | Content is determined by its seven fields. |
| `SlideCanvas.SetFieldLaws` | src/components/SlideCanvas.tsx:29-32 | The field edit behaves like a map update: the last write wins, writes to different fields commute, and writing back the present value changes nothing. |
| `SlideCanvas.ContentUpdateChangesOneField` | src/components/SlideCanvas.tsx:27-34 | With unique ids, editing a field of the slide on screen changes exactly that field. The slide's other fields and properties, all other slides, and everything in the document except `updatedAt` stay as they were. |
| `SlideCanvas.WholesaleContentDropsFields` | src/hooks/usePresentation.ts:59 | Because `updateSlide` stores `content` wholesale, a patch without the spread would clear every other field. |
| `SlideCanvas.CanvasBackground` | src/components/SlideCanvas.tsx:39 | The canvas paints the slide's colour when it is non-empty, and white (`#ffffff`) otherwise. |
| `SlideCanvas.CanvasAndExportBackgrounds` | src/utils/pptExport.ts:207-210 | The export fills a background exactly when the canvas paints the slide's own colour and that colour is not `white`. The fill is the canvas colour converted. |
| `SlideCanvas.BackgroundSentinelsDiffer` | src/components/SlideCanvas.tsx:39 | An explicit `#ffffff` looks like no background on the canvas but is filled on export; `white` and no background are both left unfilled. |
| `JsStrings.Trim` | src/utils/pptExport.ts:335 | `trim` returns the piece of the input between a blank prefix and a blank suffix, neither starting nor ending with whitespace. It is empty exactly when the input is all whitespace. |
| `JsStrings.TrimIsInfix` | src/utils/pptExport.ts:335 | The trimmed string is a contiguous piece of the input. |
| `JsStrings.RemoveFirst` | src/utils/pptExport.ts:6 | `replace` with a one-character pattern removes the first occurrence and keeps the characters before and after it. |
| `JsStrings.RemoveFirstDropsOne` | src/utils/pptExport.ts:6 | It removes exactly one occurrence. |
| `JsStrings.SplitOnSeparator` | src/utils/pptExport.ts:59 | `split` yields at least one segment; joining the segments with the separator gives back the input, and no segment contains the separator. |
| `JsStrings.InfixKeepsNoSeparator` | src/utils/pptExport.ts:59-63 | A piece of a segment without the separator has no separator either, so trimming a segment cannot create one. |
| `JsStrings.LowerAscii` | src/utils/pptExport.ts:257 | Lower-casing maps each of A-Z to the same letter in a-z (code point + 32). It leaves every other character alone and preserves being a letter or digit. |
| `JsStrings.NatToString` | src/utils/pptExport.ts:345-349 | A position prints as a non-empty string of decimal digits, without a leading zero, whose decimal value is the position. |
| `JsStrings.NatToStringInjective` | src/utils/pptExport.ts:345-349 | Different positions print differently, so each message names one slide. |

## Left out

- Rendering through the PowerPoint library (`addSlide`, `addText`, `addImage`, `writeFile`) is not modelled. Its effect is represented by the region lists, background and properties it would receive.
- Whether `addImage` throws is a per-slide input. The model cannot tell when a URL is loadable.
- The `try`/`catch` wrapper in the main export function rethrows a fixed error. Failures of the library are outside the model, so this wrapper is not modelled.
- Geometry is exact in thousandths of an inch rather than floating point. Font sizes are whole points.
- The content, column and image boxes extend below the 5.625-inch bottom edge in the source. The model keeps the source's coordinates, and its placement facts constrain only the horizontal extent.
- `Date.now()` ids and `new Date()` timestamps are parameters (`freshId`, `now`). Uniqueness of generated ids is a precondition where it matters.
- The cursor rule reads `presentation.slides` from the render that created the callback. The model passes that list explicitly and does not model React's scheduling of state updates.
- Out-of-range reorder indices are a precondition. The source's `splice` behaviour for them is not modelled: no component calls `reorderSlides` (App.tsx does not take it from the hook), so there is no caller whose arguments could be out of range.
- The unreachable `default` branches of the layout dispatch and of `convertSlideContent` have no counterpart. The type has exactly five values.
- A partial update that sets a key to an explicit `undefined` is not modelled. A patch key is either absent or holds a value.
- `handleContentUpdate` accepts any field name at run time. The canvas passes five of them (`title`, `subtitle`, `body`, `leftColumn`, `rightColumn`), and the properties panel sets `imageUrl` and `imageAlt` through the same spread-and-update pattern. The model covers the seven content keys and no other name.
- `trim` treats only ASCII whitespace, and lower-casing only ASCII letters, as the file-name pattern itself does. Unicode whitespace is not modelled.
- The toasts, the joining of messages with `', '`, and every other component, including properties panel, navigation bar, grid and editing state, are not modelled. Neither are the CSS scale transform and persistence.
- `PptExport.SlideRegions`: its own contract bounds the number of regions only. What each layout emits is stated by `TitleSlideLayout`, `ContentSlideLayout`, `TwoColumnLayout`, `ImageFocusLayout` and `BlankSlideLayout`, each about `SlideRegions` for one type. The bullet-or-paragraph choice is `ContentBodyLayout`.
- `Mutations.AddSlide`: the type is a required argument. The source's default of `'content'` is not modelled, because the navigator always passes a type.
- `PptExport.HexToPptColor`: its own contract gives only the length. Which `#` goes is stated positionally by the contract of `JsStrings.RemoveFirst`, and the character count by `PptExport.HexToPptColorDropsOneHash`. This keeps the function cheap for its many callers.
- `PptExport.NonBlankSegments`: its own contract is the length bound only. What it keeps, in which order and how often, is `PptExport.NonBlankSegmentsSelect` (the segments at `NonBlankIndices`, in order); `NonBlankSegmentsSound` and `NonBlankSegmentsComplete` state membership only.
- `PptExport.FileStem`: the stem has one `_` per character, while the source's pattern has no `u` flag and replaces each UTF-16 code unit. A character outside the Basic Multilingual Plane (an emoji, say) gives one `_` here and two in the source, so the stated length is in characters, not code units.
