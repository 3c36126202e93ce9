# Slide AI deck core, modelled in Dafny

Slide AI is a web application in which a user builds a slide deck by chatting. A deck has a
title, a theme name, optional meta (topic, audience, tone) and a list of slides. Each slide has an
id, a title, bullets, an image prompt, and optional image URL, layout, notes and style. Decks are
stored as JSON documents. A current document holds an *artifact envelope*
`{ artifact: { id, type, title, version, meta, state: { deck, past, future }, updatedAt } }`, where
`past` and `future` are the undo and redo stacks. An older document holds only the slide array.

This project models the parts of the system that decide what a deck is and how it changes:

- the store side (`lib/artifacts/slidesArtifact.ts`): normalising an untrusted slide array,
  normalising deck meta, reading a document into a deck with its undo/redo stacks, building the
  envelope that is written back, and the bounded undo/redo stacks;
- the deterministic part of the chat command (`lib/deckChat.ts`): the meta line and topic of the
  prompt, normalising a model-supplied slide, extracting JSON from a model answer, and the delete,
  all-titles and single-slide fallback branches;
- the exporters: finding the slides in stored content (`lib/export/slidesExtract.ts`); the PPTX
  helpers, including the PNG/JPEG size reader over the decoded bytes (`lib/export/pptxTemplate.ts`);
  and the HTML escaping, gradient and per-slide section choice of the PDF template
  (`lib/export/pdfTemplate.ts`);
- the editor: the workspace deck operations (`components/slides/SlideWorkspace.tsx`), the bullet
  list edits (`components/slides/BulletEditor.tsx`) and the client deck normaliser
  (`app/HomeClient.tsx`);
- the theme table and its lookup (`lib/slideThemes.ts`), and the request gate (`proxy.ts`).

Modules follow the source files: `SlidesArtifact`, `SlidesEnvelope` and `SlidesHistory` for
`slidesArtifact.ts`; `DeckChat`, `SlidesExtract`, `PptxTemplate`, `PdfTemplate`, `SlideWorkspace`,
`BulletEditor`, `HomeClient`, `SlideThemes` and `Proxy` for the other core files. Four supporting
modules hold shared vocabulary. `Wrappers` is `Option`. `Text` holds the string operations of the
JavaScript library: `trim`, `startsWith`, `slice`, `join`, `replaceAll` of one character,
`indexOf`, and number-to-string. `Js` models JavaScript values: `undefined` is `None`, and it
provides optional property reads, truthiness, `??`, `typeof`, `String(v)` and spreads. `isObject`
of `slidesArtifact.ts` (lines 20-22) is `Js.IsObject`. `SlideTypes` holds the typed slide, deck
and meta records and their stored JSON form.

The source works against injected or external values, which become parameters:

- `crypto.randomUUID` is a function from the set of ids in use to a token. The properties that
  need fresh ids assume the token is non-blank and is not the end of any id in use.
- `new Date().toISOString()` is a string parameter.
- `JSON.parse` is an abstract partial function. Where recursion through it must end, it is assumed
  to turn a text into a value whose string, if it is one, is shorter than the text.
- The LLM's answer is an outcome parameter: no usable answer, or a thrown error.
- The command classifier's result is an `Intent` record: slide number and intents.

The React state of the workspace is a class whose fields are updated by its methods. The two
loops of the source are methods with `while` loops proved against specification functions:

- `normalizeSlidesArray`'s per-element loop, with its `used` set and `changed` flag;
- the JPEG marker scan.

`moveSlide` copies the slides into an array and swaps two cells in place, as the source does.

Undo and redo on an empty stack return the state unchanged (lib/artifacts/slidesArtifact.ts:232,
240); the document route rejects such a request with status 400
(app/api/documents/[id]/route.ts:221, 224).

## Model

| member | source | states |
|---|---|---|
| SlidesArtifact.NormalizeMeta | lib/artifacts/slidesArtifact.ts:24-36 | undefined for a non-object input or when topic, audience and tone are all blank; otherwise exactly the trimmed non-blank fields, and at least one is present |
| SlidesArtifact.NormalizeMetaStored | lib/artifacts/slidesArtifact.ts:24-36 | normalising the stored form of a normalised meta gives that meta back |
| SlidesArtifact.NormalizeMetaIdempotent | lib/artifacts/slidesArtifact.ts:24-36 | `normalizeMeta` of its own output (stored) is the same output |
| SlidesArtifact.IsArtifactEnvelope | lib/artifacts/slidesArtifact.ts:38-40 | only an object holding an `artifact` property is an envelope; `ExtractEnvelope` and `ExtractLegacy` state the two readings it selects between |
| SlidesArtifact.AssignId | lib/artifacts/slidesArtifact.ts:51-65 | an id kept without raising `changed` is the element's own string id, non-blank and not in use; `AssignIdProperties` and `AssignIdChanged` state freshness and the converse |
| SlidesArtifact.CoerceSlide | lib/artifacts/slidesArtifact.ts:68-104 | the slide built for an element carries the assigned id, only non-blank bullets and only an object style; `CoerceSlideFields` gives every field's value |
| SlidesArtifact.CoerceText | lib/artifacts/slidesArtifact.ts:70-75 | the `typeof === "string" ? v : v != null ? String(v) : fallback` rule shared by the title and the image prompt: a string is kept, another non-null value is stringified, and null or undefined gives the fallback |
| SlidesArtifact.AssignIds | lib/artifacts/slidesArtifact.ts:48-66 | one id per element; `AssignIdsFresh` and `AssignIdsChangedIff` state that they are distinct and fresh and when the flag is raised |
| SlidesArtifact.NormalizeSlides | lib/artifacts/slidesArtifact.ts:42-108 | one slide per element of an array input, and no slides with `changed` false for anything else; `NormalizeCanonical` and `NormalizeIdempotent` state what the slides are |
| SlidesArtifact.AssignIdProperties | lib/artifacts/slidesArtifact.ts:48-66 | the id given to an element is never blank and never already in use; it is the raw id, with `changed` not raised, exactly when the raw id is a non-blank string not in use |
| SlidesArtifact.CoerceSlideFields | lib/artifacts/slidesArtifact.ts:68-104 | a string title is kept verbatim; a non-null non-string title is stringified; a missing or null one becomes "Başlıksız". Bullets keep the entries whose trim is non-empty, untrimmed and in order. The image prompt follows the title's rule with "" as its fallback. The image URL and the notes are kept only when they are strings. A layout survives only when it is one of the three names, and a style only when it is an object |
| SlidesArtifact.NormalizeAt | lib/artifacts/slidesArtifact.ts:42-108 | an array input gives one output slide per element, in order, each the coercion of its element under the id assigned against the ids before it |
| SlidesArtifact.AssignIdsFresh | lib/artifacts/slidesArtifact.ts:48-66 | an id rule that never hands out a blank id or one in use yields non-blank, pairwise distinct ids |
| SlidesArtifact.NormalizeCanonical | lib/artifacts/slidesArtifact.ts:42-108 | with a fresh uuid source every output slide has a non-blank id, the ids are pairwise distinct, and the fields are in normal form |
| SlidesArtifact.AssignIdChanged | lib/artifacts/slidesArtifact.ts:51-65 | an element raises `changed` exactly when its raw id is not a non-blank unused string, and an intact id is kept |
| SlidesArtifact.AssignIdsChangedIff | lib/artifacts/slidesArtifact.ts:48-66 | the flag of a whole run is raised exactly when it was raised for some element |
| SlidesArtifact.NormalizeChangedIff | lib/artifacts/slidesArtifact.ts:42-108 | `changed` is set only by id rewriting: it holds exactly when some element's id was not intact; field coercions never set it |
| SlidesArtifact.NormalizeNonArray | lib/artifacts/slidesArtifact.ts:42-47 | a non-array input gives no slides and `changed = false` |
| SlidesArtifact.CoerceStored | lib/artifacts/slidesArtifact.ts:68-104 | the field coercions leave the stored form of a well-formed slide as it was |
| SlidesArtifact.StoredIntact | lib/artifacts/slidesArtifact.ts:51-65 | the stored id of slide i of a normalised list is intact against the ids before it |
| SlidesArtifact.NormalizeStored | lib/artifacts/slidesArtifact.ts:42-108 | normalising the stored form of a normalised slide list gives the same list, with `changed = false`, whatever the uuid source |
| SlidesArtifact.NormalizeIdempotent | lib/artifacts/slidesArtifact.ts:42-108 | re-normalising an output returns an equal slide list and `changed = false` |
| SlidesArtifact.NextId | lib/artifacts/slidesArtifact.ts:51-65 | the loop body's three id steps (number to string, missing or blank to a uuid, duplicate to `${id}-${idx}-${uuid}`) compute the id and flag of the specification rule |
| SlidesArtifact.NormalizeSlidesArray | lib/artifacts/slidesArtifact.ts:42-108 | the loop with its `used` set and `changed` flag computes the specification result, and with a fresh uuid source its slides are canonical |
| SlideTypes.ParseLayoutName | lib/artifacts/slidesArtifact.ts:89-91 | each of the three layout names reads back as its own layout |
| SlidesEnvelope.ExtractSlidesState | lib/artifacts/slidesArtifact.ts:122-179 | an artifact is returned exactly when the content is an envelope, and a legacy document gets empty undo and redo stacks; `ExtractEnvelope`, `ExtractLegacy` and `ExtractAfterBuild` state the rest |
| SlidesEnvelope.BuildArtifact | lib/artifacts/slidesArtifact.ts:195-218 | an object whose every property is the one the builder writes; `BuildFields`, `BuildMetaFields` and `BuildStateFields` spell them out |
| SlidesEnvelope.BuildEnvelope | lib/artifacts/slidesArtifact.ts:182-221 | `{ artifact }` is an envelope holding the built artifact, so the reader takes its envelope branch |
| SlidesEnvelope.ExtractEnvelope | lib/artifacts/slidesArtifact.ts:128-163 | envelope branch: `past` from `state.past`, else the older `state.history`, else `[]`; `future` from `state.future`, else `[]`; the deck gets the document id, the deck's title else the document's, and the theme from the deck, else the document, else "Default"; meta normalised; the artifact returned; the flag is the normaliser's |
| SlidesEnvelope.ExtractLegacy | lib/artifacts/slidesArtifact.ts:165-179 | legacy branch: the content itself is normalised, the stacks are empty, there is no artifact, and the theme falls back to "Default" |
| SlidesEnvelope.BuildFields | lib/artifacts/slidesArtifact.ts:190-201 | the artifact id is the previous artifact's id, else the document id; the type is "slides"; the version is the previous numeric version, else 1, plus one when bumping; the title is the argument |
| SlidesEnvelope.BuildMetaFields | lib/artifacts/slidesArtifact.ts:202-206 | status "ready", the given action else "update", error null |
| SlidesEnvelope.BuildStateFields | lib/artifacts/slidesArtifact.ts:207-218 | the stored deck is the input deck with id, title and theme overwritten from the arguments and its meta normalised; `past` and `future` are passed through unchanged |
| SlidesEnvelope.VersionChain | lib/artifacts/slidesArtifact.ts:193-197 | building on a previously built artifact keeps its id and advances its version by exactly one when bumping, and by none otherwise |
| SlidesEnvelope.RestampDeckValue | lib/artifacts/slidesArtifact.ts:208-214 | restamping a deck in reader shape with its own meta gives the same deck under the new id, title and theme |
| SlidesEnvelope.ExtractStored | lib/artifacts/slidesArtifact.ts:128-163 | reading an envelope whose deck is in reader shape and whose stacks are arrays gives that deck (under the document id) and those stacks back, with no change flagged |
| SlidesEnvelope.ExtractAfterBuild | lib/artifacts/slidesArtifact.ts:122-222 | reading back an envelope the builder wrote gives the stored state: same slides and meta, the given title and theme, the stacks as stored, and no change flagged |
| SlidesEnvelope.MigrationStable | lib/artifacts/slidesArtifact.ts:165-222 | as the document route does on opening: migrating a legacy document (build without a version bump, action "create") and reading it again gives the same state, no change flagged, and version 1 |
| SlidesHistory.PushBounded | lib/artifacts/slidesArtifact.ts:227 | `[x, ...s].slice(0, 20)`: x on top, then the newest entries of s that fit, at most 20 in all |
| SlidesHistory.PushSnapshot | lib/artifacts/slidesArtifact.ts:226-229 | the snapshot is prepended to `past`, which is truncated to 20; `future` is emptied; the deck is untouched |
| SlidesHistory.UndoState | lib/artifacts/slidesArtifact.ts:231-237 | an empty `past` leaves the state unchanged; otherwise the head of `past` becomes the deck, the rest is the new `past`, and the old deck is prepended to `future`, truncated to 20 |
| SlidesHistory.RedoState | lib/artifacts/slidesArtifact.ts:239-245 | the mirror image of undo, from `future` to `past` |
| SlidesHistory.HistoryBounded | lib/artifacts/slidesArtifact.ts:225-245 | push, undo and redo keep both stacks within 20 entries |
| SlidesHistory.PushBoundedKeepsAll | lib/artifacts/slidesArtifact.ts:227 | pushing onto a stack of at most 19 entries drops nothing |
| SlidesHistory.RedoAfterUndo | lib/artifacts/slidesArtifact.ts:231-245 | `redoState(undoState(s)) == s` when `past` is non-empty, `past` has at most 20 entries and `future` at most 19 |
| SlidesHistory.UndoAfterRedo | lib/artifacts/slidesArtifact.ts:231-245 | `undoState(redoState(s)) == s` when `future` is non-empty, `future` has at most 20 entries and `past` at most 19 |
| SlidesHistory.UndoOnFullFutureDropsOldest | lib/artifacts/slidesArtifact.ts:231-237 | with 20 redo entries an undo drops the oldest one, so a redo cannot bring it back |
| SlidesHistory.UndoAfterEdit | lib/artifacts/slidesArtifact.ts:226-237 | undo right after an edit (snapshot pushed, new deck installed) restores the deck before it with the edited deck as the only redo entry, and redo then restores the edit |
| SlidesHistory.EditAllLength | lib/artifacts/slidesArtifact.ts:225-229 | after k edits `past` holds min(\|past\| + k, 20) entries |
| DeckChat.MetaEntryPart | lib/deckChat.ts:19-33 | the line of one meta field (a newline, its label and its trimmed text) is present exactly when the field has text after trimming |
| DeckChat.MetaLineShape | lib/deckChat.ts:19-33 | no meta gives ""; otherwise "META:" and one line per field with text; the result never ends in a newline |
| DeckChat.MetaLine | lib/deckChat.ts:19-33 | a non-empty meta line needs a meta with some field that has text; `MetaLineShape` gives the whole line |
| DeckChat.GetDeckTopic | lib/deckChat.ts:55-64 | the topic has at most 220 characters, and is the first 220 characters of the trimmed meta topic when that topic is not blank |
| DeckChat.TopicFallback | lib/deckChat.ts:57-63 | the fallback topic starts with the trimmed deck title, or "Sunum" when that is empty |
| DeckChat.GetDeckTopicFromTitles | lib/deckChat.ts:55-64 | without a meta topic the topic is a prefix of the fallback and begins with the title base; it is never blank and never starts with white space |
| DeckChat.ClampBullets | lib/deckChat.ts:66-71 | at most 6 entries, each non-blank, untrimmed and in original order: the first entries of the non-blank bullets; a non-array input gives `[]` |
| DeckChat.NormalizeId | lib/deckChat.ts:74-78 | a non-blank string gives its trim; a number gives its decimal string; anything else gives the fallback |
| DeckChat.NormalizeIdStable | lib/deckChat.ts:74-78 | with a trimmed non-blank fallback every normalised id has text, and normalising it again keeps it |
| DeckChat.NormalizeSlideLikeFields | lib/deckChat.ts:80-98 | the id is `normalizeId(s.id, fallback)`; a non-blank string title is kept, anything else becomes "Başlıksız"; the bullets are clamped; a non-string image prompt becomes ""; a layout survives only when valid |
| DeckChat.NormalizeSlideLikeNormal | lib/deckChat.ts:80-98 | with a trimmed non-blank fallback the result has a trimmed non-blank id, a title with text, at most six bullets with text, and a style that is an object or an array |
| DeckChat.NormalSlideStored | lib/deckChat.ts:80-98 | a slide in that normal form, read back from its stored JSON, is the same slide |
| DeckChat.NormalizeSlideLikeIdempotent | lib/deckChat.ts:80-98 | `normalizeSlideLike` applied to the stored form of its own output gives that output back |
| DeckChat.NormalizeSlideLike | lib/deckChat.ts:80-98 | every result has a title with text, at most 6 non-blank bullets, and a style only when one of object type was given; `NormalizeSlideLikeFields` gives each field |
| DeckChat.BraceSpan | lib/deckChat.ts:109-112 | when the first '{' comes before the last '}' the result is the text between them, inclusive, starting with '{' and ending with '}'; otherwise the text itself |
| DeckChat.ExtractLikelyJson | lib/deckChat.ts:104-113 | a fenced block with content gives that content trimmed; otherwise the brace span of the trimmed text |
| DeckChat.FenceFromNone | lib/deckChat.ts:106 | a text without three backticks in a row has no fenced block |
| DeckChat.FenceFrom | lib/deckChat.ts:106 | a fenced block found from position p is no longer than the text after p; `FenceFromNone` and `ExtractLikelyJsonInfix` state when there is none and where it lies |
| DeckChat.ExtractLikelyJsonInfix | lib/deckChat.ts:104-113 | whatever the branch, the result is a contiguous part of the answer |
| DeckChat.ExtractLikelyJsonBraced | lib/deckChat.ts:104-113 | an answer without a fence whose trimmed text is one braced object comes back as that trimmed text |
| DeckChat.WithoutIndexSpec | lib/deckChat.ts:141 | `filter((_, i) => i !== idx)` removes exactly position idx when it exists, and nothing otherwise |
| DeckChat.DeleteRemovesExactlyOne | lib/deckChat.ts:139-152 | deleting slide n with 1 <= n <= \|slides\| removes exactly index n-1 and keeps the rest in order; a larger n gives no deck |
| DeckChat.DeleteSlide | lib/deckChat.ts:139-152 | a deck comes back exactly when slide n exists, with one slide fewer; the index filter is `WithoutIndex`, and `DeleteRemovesExactlyOne` with `WithoutIndexSpec` states which slide goes |
| DeckChat.RetitleAllKeepsContent | lib/deckChat.ts:204-206 | the all-titles fallback keeps the length and every non-title field, and titles slide i "<base>: Bölüm i+1" |
| DeckChat.RetitleAll | lib/deckChat.ts:204-206 | always returns a deck with the same number of slides and the same ids; `RetitleAllKeepsContent` gives the titles |
| DeckChat.UpdateFallbackTouchesOnlyTarget | lib/deckChat.ts:208-272 | an out-of-range slide number gives no deck; otherwise only the target changes, keeping its id and other fields, and it gets a non-blank title and at least one bullet |
| DeckChat.UpdateFallback | lib/deckChat.ts:208-272 | a deck comes back exactly when slide n exists, with the same number of slides; the repaired slide is `PatchSlide` and the map that installs it is `ReplaceAt`; `UpdateFallbackTouchesOnlyTarget` and `ReplaceAtOnly` state what changes |
| DeckChat.GeneralBranchNoDeck | lib/deckChat.ts:275-347 | without a model answer the general branch returns no deck; the reply is "Tamam." or, when the call threw, the failure message |
| DeckChat.GeneralResult | lib/deckChat.ts:275-347 | without a model deck the general branch returns no deck and a non-empty reply |
| DeckChat.CommandKeepsDeckHeader | lib/deckChat.ts:128-132 | any deck the command returns keeps the input deck's id, title, theme and meta |
| DeckChat.RunDeckChatCommand | lib/deckChat.ts:125-347 | every reply has text, and a returned deck has the input's slide count or one fewer; `CommandKeepsDeckHeader` and the per-branch lemmas state the rest |
| DeckChat.MergedField | lib/deckChat.ts:253 | `{ ...target, ...answer, id: target.id }` has the target's id, the answer's properties, and the target's other properties |
| DeckChat.MergeUpdatedSlideKeepsId | lib/deckChat.ts:253-254 | the merged slide keeps the target's (normalised) id, has a title with text, and keeps the target's title when the answer has none |
| DeckChat.MergeUpdatedSlide | lib/deckChat.ts:253-254 | the merged slide has a title with text and at most 6 bullets; `MergedField` and `MergeUpdatedSlideKeepsId` state where each field comes from |
| DeckChat.ReplaceAtOnly | lib/deckChat.ts:255 | installing the updated slide changes position idx only and keeps the length |
| SlidesExtract.ObjectSlides | lib/export/slidesExtract.ts:27-39 | for an object: the `slides` array, else the `content` array, else `artifact.state.deck.slides`, else `artifact.deck.slides`, else `[]` |
| SlidesExtract.ExtractSlides | lib/export/slidesExtract.ts:12-42 | falsy content gives `[]`; an array is returned as it is; an object follows the probe order; a string is extracted from its parse, or gives `[]` when parsing fails; any other scalar gives `[]` |
| SlidesExtract.ExtractParsed | lib/export/slidesExtract.ts:16-22 | a non-empty JSON text is extracted like the value it denotes |
| SlidesExtract.ExtractHeld | lib/export/slidesExtract.ts:12-42 | the result is empty or an array the content holds, possibly behind JSON texts |
| SlidesExtract.ExtractFromBuiltEnvelope | lib/export/slidesExtract.ts:27-39 | an envelope as the builder writes it exports exactly its deck's slide array |
| SlidesExtract.ExportDebugInfo | lib/export/slidesExtract.ts:44-56 | reports the content's `typeof`, whether it is an array, its keys for an object or array, whether the artifact and its deck are truthy, and the artifact deck's slide count when that is an array, else none |
| SlidesExtract.DebugInfoConsistent | lib/export/slidesExtract.ts:44-56 | a slide count implies a deck, a deck implies an artifact, and an array is reported as an object with keys |
| SlidesExtract.DebugCountMatchesExport | lib/export/slidesExtract.ts:52-54 | the debug slide count is the number of slides exported, unless a top-level `slides` or `content` array takes precedence |
| PptxTemplate.ClampBullets | lib/export/pptxTemplate.ts:15-18 | at most 10 entries, each trimmed and non-empty, in order; a non-array input gives `[]` |
| PptxTemplate.ClampBulletsTrimmed | lib/export/pptxTemplate.ts:15-18 | every exported bullet is its own trim |
| PptxTemplate.FilterTrimmed | lib/export/pptxTemplate.ts:17 | trimming and dropping the empty entries equals dropping the blank entries and then trimming |
| PptxTemplate.ClampBulletsOfKept | lib/export/pptxTemplate.ts:15-18 | the export's bullets are the trims of the first ten bullets the store keeps |
| PptxTemplate.ClampStoredBullets | lib/export/pptxTemplate.ts:15-18 | a stored slide with at most ten non-blank bullets exports all of them, trimmed |
| PptxTemplate.Hex | lib/export/pptxTemplate.ts:20-24 | the six hex digits of the trimmed input with one leading '#' stripped, when that is exactly six hex digits; else the fallback |
| PptxTemplate.StripHash | lib/export/pptxTemplate.ts:22 | a text starting with '#' loses exactly that first character; any other text is kept |
| PptxTemplate.HexOfColour | lib/export/pptxTemplate.ts:20-24 | "#rrggbb" and "rrggbb" both give "rrggbb" |
| PptxTemplate.HexIdempotent | lib/export/pptxTemplate.ts:20-24 | with a valid fallback the result is always six hex digits, and `hex` of it gives it back |
| PptxTemplate.FitFontSize | lib/export/pptxTemplate.ts:26-32 | up to 24 characters the base; up to 45 max(min, base-4); up to 70 max(min, base-8); otherwise min |
| PptxTemplate.FitFontSizeBounds | lib/export/pptxTemplate.ts:26-32 | when min <= base the size lies in [min, base], and a longer text never gets a larger size |
| PptxTemplate.NormalizeLayoutForExport | lib/export/pptxTemplate.ts:40-46 | always one of the three layouts; full-image exactly when the layout is "full-image" and the image data starts with "data:"; image-left exactly when it is "image-left" |
| PptxTemplate.ExportLayoutOfParsed | lib/export/pptxTemplate.ts:40-46 | a layout the store would drop as invalid exports as text-left |
| PptxTemplate.PngSize | lib/export/pptxTemplate.ts:56-61 | a size only for more than 24 bytes with the big-endian word 0x89504E47 at 0; it is then the big-endian words at 16 and 20, both non-zero |
| PptxTemplate.GetImageSize | lib/export/pptxTemplate.ts:51-88 | the reader with the marker-scan loop returns exactly the specification result for the decoded bytes |
| PptxTemplate.JpegScanFound | lib/export/pptxTemplate.ts:64-82 | a JPEG size is found only at FF followed by C0 or C2 at some i with i + 9 in range, height at i+5 and width at i+7, both non-zero |
| PptxTemplate.JpegScan | lib/export/pptxTemplate.ts:64-82 | a size the scan returns has a non-zero width and height; `JpegScanFound` states where in the bytes it is read |
| PptxTemplate.ImageSize | lib/export/pptxTemplate.ts:51-88 | a size comes only from a PNG header or a JPEG stream, and has non-zero dimensions; `PngRoundTrip` and `JpegRoundTrip` show it reads back what a header holds |
| PptxTemplate.ImageSizePositive | lib/export/pptxTemplate.ts:51-88 | no size is ever zero: a zero or undetected dimension gives null |
| PptxTemplate.PngRoundTrip | lib/export/pptxTemplate.ts:56-61 | a PNG header written with width w and height h (both non-zero, 32-bit) reads back as w and h |
| PptxTemplate.JpegRoundTrip | lib/export/pptxTemplate.ts:64-82 | a JPEG whose first segment is a baseline frame header with width w and height h reads back as w and h |
| PdfTemplate.EscapeHtml | lib/export/pdfTemplate.ts:3-10 | `escapeHtml` is the one-pass escape of `String(input ?? "")`; `EscapeHtmlSafe` and `EscapeHtmlRoundTrip` state it leaves no markup and loses nothing |
| PdfTemplate.EscapeAttr | lib/export/pdfTemplate.ts:12-15 | `escapeAttr` is the one-pass attribute escape, backticks included; `EscapeAttrSafe` and `EscapeAttrRoundTrip` state it leaves no markup and loses nothing |
| PdfTemplate.SlideSection | lib/export/pdfTemplate.ts:53-126 | a grid section has exactly one text column, the text block is numbered idx + 1, and a full-image section carries the theme's overlay; `SectionLayout`, `SectionText` and `StoredSlideSection` state which layout is chosen and what the text holds |
| PdfTemplate.EscapeChainIsEscapeText | lib/export/pdfTemplate.ts:3-10 | because '&' is replaced first, the chain of five `replaceAll`s is the one-pass escape of each character |
| PdfTemplate.EscapeHtmlIsEscapeText | lib/export/pdfTemplate.ts:3-10 | `escapeHtml` is the one-pass escape of `String(input ?? "")` |
| PdfTemplate.EscapeAttrIsEscapeText | lib/export/pdfTemplate.ts:12-15 | `escapeAttr` is the one-pass attribute escape, backticks included |
| PdfTemplate.EscapeHtmlSafe | lib/export/pdfTemplate.ts:3-10 | the output has no '<', '>', '"' or '\'', and every '&' in it starts one of `&amp;` `&lt;` `&gt;` `&quot;` `&#039;` |
| PdfTemplate.EscapeAttrSafe | lib/export/pdfTemplate.ts:12-15 | the attribute output has no '`' either, and every '&' starts one of those entities or `&#096;` |
| PdfTemplate.UnescapeEscape | lib/export/pdfTemplate.ts:3-15 | reading the entities of escaped text back gives the text |
| PdfTemplate.EscapeHtmlRoundTrip | lib/export/pdfTemplate.ts:3-10 | `escapeHtml` loses nothing: reading its output back gives `String(input ?? "")` |
| PdfTemplate.EscapeAttrRoundTrip | lib/export/pdfTemplate.ts:12-15 | `escapeAttr` loses nothing either |
| PdfTemplate.CssGradient | lib/export/pdfTemplate.ts:17-34 | "" exactly when the gradient is absent or disabled; otherwise a linear gradient at the direction's angle from `from` to `to` |
| PdfTemplate.AngleOfDirections | lib/export/pdfTemplate.ts:23-33 | bottom-top gives 0deg, left-right 90deg, right-left 270deg, top-bottom and any other value 180deg |
| PdfTemplate.BuiltInThemesFlat | lib/slideThemes.ts:21-140 | every built-in theme has its gradient disabled, so none paints a gradient |
| PdfTemplate.SectionLayout | lib/export/pdfTemplate.ts:54-126 | "full-image" gives the full-image section, with the overlay exactly when the theme enables it; "image-left" puts the image column first; any other layout, or a missing or falsy one, puts the text column first; a grid has one column of each kind |
| PdfTemplate.SectionText | lib/export/pdfTemplate.ts:51-105 | every section carries the slide number idx + 1 and the escaped title, or "Slide Title" when that is empty |
| PdfTemplate.TruthyValuesEmpty | lib/export/pdfTemplate.ts:56-59 | `.filter(Boolean)` keeps exactly the truthy entries in order, so it is empty exactly when no entry is truthy |
| PdfTemplate.NoBulletsHint | lib/export/pdfTemplate.ts:99-105 | the empty hint (on a full-image slide, no list) appears exactly when the slide has no truthy bullet |
| PdfTemplate.SlideBulletsFaithful | lib/export/pdfTemplate.ts:52-59 | each bullet shown reads back as the text of its entry and contains no markup character |
| PdfTemplate.StoredSlideSection | lib/export/pdfTemplate.ts:53-126 | for a stored slide full-image gives the full-image section, image-left the image column first, text-left or no layout the text column first; the picture is shown exactly when the slide has a non-empty image URL |
| PdfTemplate.SlideSections | lib/export/pdfTemplate.ts:49-132 | one section per slide, in order, section i built from slide i at position i |
| SlideWorkspace.IndexOfId | components/slides/SlideWorkspace.tsx:135 | the first position holding the active id, or -1 when none does or the id is null |
| SlideWorkspace.ActiveOf | components/slides/SlideWorkspace.tsx:90-93 | the slide with the active id if one exists, else the first slide, else none |
| SlideWorkspace.Replaced | components/slides/SlideWorkspace.tsx:100 | the list keeps its length and the id at every position; `ReplacedSpec` states which slides change |
| SlideWorkspace.Without | components/slides/SlideWorkspace.tsx:125 | no slide with the removed id remains, and the list never grows; `WithoutRemovesAt` states exactly what remains |
| SlideWorkspace.Moved | components/slides/SlideWorkspace.tsx:132-143 | the list keeps its length and holds only slides it had; `MovedPermutes`, `MoveBack` and `MoveAtEdge` state the rest |
| SlideWorkspace.ReplacedSpec | components/slides/SlideWorkspace.tsx:95-105 | `updateSlide` replaces exactly the slides whose id equals the update's, keeps the others and the length, and keeps every id |
| SlideWorkspace.ReplacedIdempotent | components/slides/SlideWorkspace.tsx:95-105 | updating twice with the same slide is updating once |
| SlideWorkspace.ReplacedActive | components/slides/SlideWorkspace.tsx:95-105 | after updating the active slide, the active slide is the update |
| SlideWorkspace.WithoutCount | components/slides/SlideWorkspace.tsx:125 | with unique ids, filtering out an id present in the deck removes exactly one slide |
| SlideWorkspace.WithoutKeeps | components/slides/SlideWorkspace.tsx:125 | a slide remains after the filter exactly when it was in the deck and its id is not the removed one |
| SlideWorkspace.WithoutRemovesAt | components/slides/SlideWorkspace.tsx:125 | with unique ids, filtering out the id of slide k gives exactly the slides before k followed by the slides after k, in their order |
| SlideWorkspace.DeleteNeverEmpties | components/slides/SlideWorkspace.tsx:122-130 | with unique ids and an active id in the deck, deleting never empties a non-empty deck |
| SlideWorkspace.WithoutNone | components/slides/SlideWorkspace.tsx:125 | filtering out an id no slide has changes nothing |
| SlideWorkspace.MovedPermutes | components/slides/SlideWorkspace.tsx:132-143 | a move only reorders: the result is a permutation of the slides |
| SlideWorkspace.MovedKeepsActive | components/slides/SlideWorkspace.tsx:132-143 | a move that happens keeps the active slide, one place up or down |
| SlideWorkspace.MoveBack | components/slides/SlideWorkspace.tsx:132-143 | with unique ids a move that happens is undone by the opposite move |
| SlideWorkspace.MoveAtEdge | components/slides/SlideWorkspace.tsx:135-137 | on any deck, a move with no active slide, of the first slide up or of the last slide down changes nothing; with unique ids, a move that changes nothing was one of those |
| SlideWorkspace.FirstSlideUpThenDown | components/slides/SlideWorkspace.tsx:132-143 | a blocked move is not undone by the opposite one: of two slides, the first moved up stays, and moved down then it swaps with the second |
| SlideWorkspace.Workspace.constructor | components/slides/SlideWorkspace.tsx:24-31 | no deck, no active id, the first theme, not dirty |
| SlideWorkspace.Workspace.ActiveSlide | components/slides/SlideWorkspace.tsx:90-93 | no deck gives none; otherwise the active-slide choice over the deck's slides |
| SlideWorkspace.Workspace.Load | components/slides/SlideWorkspace.tsx:36-54 | no deck clears the deck and the active id; otherwise the slides are copied, the first slide's id (or null) becomes active and the theme is looked up by name; not dirty |
| SlideWorkspace.Workspace.UpdateSlide | components/slides/SlideWorkspace.tsx:95-105 | the deck's slides are replaced by id, the active id and theme are kept, dirty is set, and an active id in the deck stays in it |
| SlideWorkspace.Workspace.AddSlide | components/slides/SlideWorkspace.tsx:107-120 | appends "Yeni Slide" with bullets ["Yeni madde"] and an empty image prompt under the new id, and makes it active; with a fresh id it is the active slide |
| SlideWorkspace.Workspace.DeleteSlide | components/slides/SlideWorkspace.tsx:122-130 | no change with no deck or one slide; otherwise the active-id slides are removed and the first remaining slide becomes active |
| SlideWorkspace.Workspace.MoveSlide | components/slides/SlideWorkspace.tsx:132-143 | copies the slides into an array and swaps the active slide with its neighbour, which is the specification's move; no change when the active slide or the neighbour is missing |
| BulletEditor.UpdateBullet | components/slides/BulletEditor.tsx:11-15 | the copy has the same length, the value at `index` and every other bullet unchanged |
| BulletEditor.InsertAfter | components/slides/BulletEditor.tsx:24-25 | `splice(index + 1, 0, "")` grows the list by one |
| BulletEditor.RemoveAt | components/slides/BulletEditor.tsx:42 | the filter shrinks the list by one |
| BulletEditor.KeyDown | components/slides/BulletEditor.tsx:17-44 | Enter inserts after `index`; Backspace removes `index` exactly when that bullet is "" and more than one remains; other keys change nothing |
| BulletEditor.ApplyEdit | components/slides/BulletEditor.tsx:11-52 | a typed value or a key press changes the list's length by at most one; `EditKeepsNonEmpty` states it never empties |
| BulletEditor.EnterInserts | components/slides/BulletEditor.tsx:22-26 | Enter puts "" at index+1, keeps the other bullets in order, and removing it gives the list back |
| BulletEditor.BackspaceRemoves | components/slides/BulletEditor.tsx:36-43 | Backspace takes out only the edited bullet and keeps the others in order |
| BulletEditor.EnterUndoesBackspace | components/slides/BulletEditor.tsx:22-43 | Enter on the bullet before puts back the empty bullet that Backspace removed |
| BulletEditor.EditKeepsNonEmpty | components/slides/BulletEditor.tsx:38-39 | no single edit empties a non-empty list |
| BulletEditor.EditsKeepNonEmpty | components/slides/BulletEditor.tsx:11-43 | however many edits are made, a list that starts with a bullet keeps at least one |
| HomeClient.ClientSlides | app/HomeClient.tsx:26-37 | `raw.slides` when an array, else `raw.content` when an array, else the artifact deck's slides when an array, else `[]` |
| HomeClient.NormalizeDeck | app/HomeClient.tsx:22-61 | null exactly when `raw.id` is falsy; otherwise the id is kept and the slides are chosen by the precedence above |
| HomeClient.FromArtifact | app/HomeClient.tsx:30-33 | the `raw.content && typeof raw.content === "object" && ...` chain: a falsy content is itself the value, a truthy non-object gives `false`, and an object gives the artifact deck's property |
| HomeClient.NormalizeDeckTitle | app/HomeClient.tsx:44-47 | a non-nullish `raw.title` wins; else the artifact deck's title; a falsy non-null content stops the chain, a truthy non-object content gives `false`, and only a missing title gives "Yeni Sunum" |
| HomeClient.NormalizeDeckThemeAndMeta | app/HomeClient.tsx:39-52 | the theme name is the response's own when not nullish; else a falsy non-null content is itself the theme, a truthy non-object content gives `false`, and an object content gives the artifact deck's theme name, or "Default" when that or the content is missing. Meta follows the same steps, ending in undefined instead of a default |
| HomeClient.ClientSlidesMatchExport | app/HomeClient.tsx:26-37 | where both apply, the client reads the same slides as the exporter |
| HomeClient.ClientIgnoresOlderEnvelope | app/HomeClient.tsx:29-33 | on the older `{ artifact: { deck: { slides } } }` shape the exporter finds the slides and the client finds none |
| HomeClient.ClientReadsBuiltEnvelope | app/HomeClient.tsx:22-61 | a response holding the document id and a built envelope reads back as the stored deck: its slides, the stamped title and theme, and the stored meta |
| SlideThemes.Find | lib/slideThemes.ts:152 | `find` returns a theme of the list whose name is the argument, or none when no theme has it |
| SlideThemes.ThemeNames | lib/slideThemes.ts:142-149 | the list is Default, Dark, Minimal, Royal, Forest, Sunset, in that order |
| SlideThemes.ThemeNamesDistinct | lib/slideThemes.ts:142-149 | no two themes share a name |
| SlideThemes.FirstIsDefault | lib/slideThemes.ts:142-143 | the first theme is `defaultTheme`, named "Default" |
| SlideThemes.GetThemeByNameSpec | lib/slideThemes.ts:151-153 | a name some theme carries gives exactly that theme; any other name, and undefined, gives the default theme |
| SlideThemes.GetThemeByOwnName | lib/slideThemes.ts:151-153 | looking a theme up by its own name gives it back |
| SlideThemes.GetThemeByName | lib/slideThemes.ts:151-153 | the result is always one of the built-in themes; `GetThemeByNameSpec` states which |
| Proxy.SomeSessionCookie | proxy.ts:18-28 | `names.some(...)` from position k holds exactly when one of those names has a non-empty cookie value |
| Proxy.HasAuthSessionCookie | proxy.ts:18-28 | true exactly when one of the four session cookie names has a non-empty value |
| Proxy.Decide | proxy.ts:30-45 | passes exactly for a public path, an API path, or a request with a session cookie; otherwise redirects to "/login" with `from` set to the pathname |
| Proxy.IsPublicPath | proxy.ts:7-13 | every public path is an absolute path; `PublicPaths` states exactly which paths are public |
| Proxy.PublicPaths | proxy.ts:5-13 | `isPublicPath` holds exactly for "/login" and paths starting with "/api/auth", "/_next" or "/favicon" |
| Proxy.OpenPathsIgnoreCookies | proxy.ts:33-36 | public and API paths pass whatever the cookies |
| Proxy.AuthPrefixWithinApi | proxy.ts:8-9 | every "/api/auth" path is also an "/api" path |
| Proxy.SessionPassesEverywhere | proxy.ts:38-39 | a request with a session cookie passes on every path |
| Proxy.RedirectSettles | proxy.ts:41-44 | the redirect target passes, so a redirect is never followed by another |
| Proxy.NoSessionRedirects | proxy.ts:41-44 | without a session cookie every other path is redirected to "/login" with `from` set to it |

## Left out

- The LLM calls in `runDeckChatCommand` (`lib/deckChat.ts`): the all-titles request at lines 155-202 and the single-slide request at lines 218-258. In both branches the model takes the outcome where the answer is absent or unusable, so their fallbacks run. The merge of an answered slide is modelled on its own (`MergeUpdatedSlide`).
- DeckChat.GeneralBranchNoDeck: the general branch uses a model reply only when it carries a slide array. An answer without slides but with its own `assistantText` would have that text replied; the model replies "Tamam." instead. The answered general branch (lines 321-341) is not modelled.
- `parseSimpleCommand` (`lib/deckChat.ts:36-53`): its regular expressions over Turkish text are library behaviour. The slide number and intents it yields are an input.
- The prompt strings and the model output parser of `lib/deckChat.ts`: JSON parsing is a foreign call.
- The database, the route handlers and authentication. `MigrationStable` states what the document route does with a legacy document, but storage itself is I/O.
- The HTML and CSS text of `buildSlidesHtml` (`lib/export/pdfTemplate.ts:134-321`), colours, radius and overlay opacity: presentational text and floating-point values. Only the structure each slide section takes is modelled.
- The palette fallbacks `exportBackground`/`exportText`/`exportAccent` of `buildSlidesHtml`: the typed theme always has a palette, so they are never reached.
- `buildPptxBuffer`, `fitContain`, `fitCover` and `opacityToPptxTransparency` (`lib/export/pptxTemplate.ts`): a library wrapper and floating-point geometry.
- Base64 decoding of the data URI: the size reader works on the decoded bytes. A thrown decoding error, which the source turns into null, is not modelled.
- PptxTemplate.NormalizeLayoutForExport: a non-string truthy `imageData` would make the source's `startsWith` call throw; the model treats it as no image data.
- Numbers are integers: fractions, NaN and infinities are not modelled, so `normalizeId`'s “finite number” is any integer.
- Strings are sequences of characters: UTF-16 code units and surrogate pairs are not distinguished, so lengths such as the 220-character topic limit count characters.
- Object property order: objects are maps, so `Object.keys` in the export debug info is a set.
- Spreading a value that is not an object (`{ ...deck }` on a string or array) copies nothing in the model; JavaScript would copy index keys.
- `crypto.randomUUID` and the clock are parameters; freshness of the generated id is an assumption of the lemmas that need it, not a property proved.
- The React effects, autosave debounce, timers, DOM focus and fetches of `SlideWorkspace.tsx`, `BulletEditor.tsx` and `HomeClient.tsx`. Only the state transitions are modelled.
- SlideWorkspace.Workspace.Load: `deck.slides` is typed as an array, so the `Array.isArray` guard at line 44 always holds in the model.
- BulletEditor.UpdateBullet: requires an index inside the list. The editor only offers edits on bullets it shows, and `ApplyEdit` treats an index past the end as no change.
- SlideWorkspace.Workspace.AddSlide: with no deck loaded the source still sets the active id; the model does the same, and its freshness ensures speaks only of a loaded deck.
