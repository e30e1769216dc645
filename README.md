# Moodboard assistant: canvas state, chat shaping and link rewriting in Dafny

This project models the state logic and data shaping of the design
moodboard assistant's web front end. It covers three parts.

- **The freeform design canvas** (`src/components/DesignCanvas.jsx`). Its
  state is the item list, the selected item, the zoom level, the two picker
  modes, and the extracted colours and typography. These become the fields
  of the class `DesignCanvas.Canvas`. Each handler is a method that
  replaces the fields as the component's setters do:
  - load, add, drag, remove, activate, duplicate, clear and zoom;
  - the picker toggles and the item click dispatcher.

  The list transforms (`map`/`filter`/spread) and the pixel-to-`#rrggbb`
  step are functions in `CanvasModel`. The `#rrggbb` step is the
  hexadecimal notation of CSS Color Module Level 4, section 5.2.
- **The dashboard** (`src/ChatUI.jsx`). Its `useState` hooks become the
  fields of the class `ChatUI.Dashboard`. The handlers modelled are
  `toggleAssetType`, `handleExtractColors`, `toggleImageSelection`,
  `sendMessage`, and the text that `exportColorPalette` writes. They rest
  on pure helpers in three modules:
  - `Palette`: the hex-token scan of `extractColorPalette`, the colour
    merge, and the CSS custom-property text;
  - `Selection`: the cross-field asset match and the toggle;
  - `ChatUI`: composing the user's text, classifying formats, grouping the
    reply by category, and the messages a reply appends.
- **The chat area** (`src/components/ChatArea.jsx`):
  - the regular-expression replace of `makeLinksClickable`, in `ChatLinks`;
  - the related-term buttons and their append rule;
  - the image grid grouping and the masonry row-span rule;
  - how a message's text is shown;
  - the routing of a submit.

Both components group a list by category in first-appearance order. This
is the `Grouping.GroupBy` loop, which pushes onto a dictionary in place. It
is proved against `Seqs.DistinctKeys` and `Grouping.Group`.
`Seqs.DistinctKeys` lists the keys the way `Object.entries` visits them,
and it is also what `[...new Set(xs)]` yields.

Representation choices:
- A JavaScript string field that is absent or falsy is `""`.
- An optional array or text is an `Option`.
- `Date.now()` and `Math.random()` are method parameters.
- The `confirm()` dialog of `clearCanvas` is a boolean parameter.
- The pixel read is summarised by a `Sample` value:
  - `NoElement`: no image element;
  - `Blocked`: reading the pixels threw;
  - `Pixels`: the five sampled pixels.
- The search request's outcome is a `SearchReply` value passed to
  `SendMessage`. It is either the failure, which lands in the `catch`, or
  the reply's fields.
- The AI generation request's outcome is an `AiReply` value.
- Zoom is a `real`.

Five things about the code are worth knowing. All of them are modelled as
written.
- **`extractColorPalette` falls back to the current palette** when the text
  holds no colour token. While the palette is non-empty, which it always
  is, the extracted list is therefore never empty. So the server's
  `colorPalette` branch in `sendMessage` is never taken. See
  `ChatUI.ServerPaletteUnused`.
- **`makeLinksClickable` is not idempotent in general.** A captured address
  may itself contain `<a href=`. It is idempotent when no captured address
  contains `<`.
- **A pixel read that throws** (a cross-origin image) is not caught by
  `extractColorFromImage`. The click handler then stops before it turns
  the colour picker off. `DesignCanvas.Canvas.ClickItem` keeps the picker
  on in that case.
- **`ChatUI.jsx` passes neither `includeAI` nor `addMessage` to
  `ChatArea`**, so in the assembled page every submit goes to
  `sendMessage`. It also passes `toggleImageSelection` under a name
  (`toggleImageSelection`) other than the one `ChatArea` reads
  (`onImageSelect`). `ChatArea.HandleSubmit` models `handleSubmit` for
  either value of `includeAI`.
- **Both groupings throw for an inherited property name.** They collect
  into `{}`, so for a category such as `constructor`, `toString` or
  `__proto__` the lookup finds the inherited member, which is truthy and
  has no `push`. In `sendMessage` the `catch` then adds the error message,
  after the related terms and the palette have already been taken (see
  `ChatUI.InheritedCategoryFails`). `renderFormatGrid` throws while
  rendering (`ChatArea.FormatGrid` yields `GridThrows`).

## Model

| member | source | states |
|---|---|---|
| DesignCanvas.Canvas.constructor | src/components/DesignCanvas.jsx:17-27 | the canvas starts empty, with nothing selected, zoom 1, both pickers off and no extracted colours or typography |
| DesignCanvas.Canvas.LoadSelected | src/components/DesignCanvas.jsx:30-65 | an open, empty canvas with a non-empty selection takes the loaded items (when any); in every other case the items stay as they were; nothing else changes |
| CanvasModel.LoadItemsSound | src/components/DesignCanvas.jsx:36-58 | each loaded item comes from a selected image with an address, sits at that image's index as its z-index, and carries `image \|\| url` and the title defaulting to 'Canvas Image'; `Date.now()` is read once per image; z-indices strictly increase and ids are pairwise distinct whatever time stamps are read |
| CanvasModel.LoadItemsComplete | src/components/DesignCanvas.jsx:36-58 | every selected image with an address yields an item: the filter drops only images without one |
| CanvasModel.AddressedSpec | src/components/DesignCanvas.jsx:36-58 | the kept indices are exactly the images with an address, in increasing order |
| CanvasModel.RandomPosition | src/components/DesignCanvas.jsx:74-77 | on the 1200×800 canvas a random position lies in [100, 500) × [100, 300) |
| CanvasModel.NewImageItem | src/components/DesignCanvas.jsx:68-81 | the new item has a fresh time-stamp id, type 'image', size 200×200, rotation 0, z-index the item count, src `image.image`, else `image.url`, else the whole record (or the bare address), and title defaulting to 'Canvas Image' |
| CanvasModel.TitleOf | src/components/DesignCanvas.jsx:73 | the title is never empty |
| DesignCanvas.Canvas.AddImage | src/components/DesignCanvas.jsx:68-84 | exactly one item is appended at the end; the earlier items and every other field are unchanged |
| CanvasModel.MoveTo | src/components/DesignCanvas.jsx:87-95 | the length is kept; an item with the id gets the new position and keeps every other field; every other item is unchanged |
| CanvasModel.MoveToLastSampleWins | src/components/DesignCanvas.jsx:87-95 | two drags in a row leave the item at the second point |
| DesignCanvas.Canvas.Drag | src/components/DesignCanvas.jsx:87-95 | the items become `MoveTo` of the old items; nothing else changes |
| CanvasModel.Without | src/components/DesignCanvas.jsx:99 | the remaining items are exactly the old items with a different id |
| CanvasModel.WithoutConcat | src/components/DesignCanvas.jsx:99 | the filter works item by item, so it keeps the original order |
| CanvasModel.WithoutAbsent | src/components/DesignCanvas.jsx:99 | removing an id that no item has leaves the list unchanged |
| CanvasModel.WithoutIdempotent | src/components/DesignCanvas.jsx:99 | removing the same id twice is removing it once |
| DesignCanvas.Canvas.Remove | src/components/DesignCanvas.jsx:98-101 | the items lose that id; the selection is cleared only if it was that id; no z-index becomes negative |
| CanvasModel.MaxZ | src/components/DesignCanvas.jsx:108 | `Math.max(...zIndex, 0)` is at least 0, bounds every z-index, and is 0 or some item's z-index |
| CanvasModel.MaxZIsBound | src/components/DesignCanvas.jsx:230 | any non-negative bound that some item attains is the maximum |
| CanvasModel.BringToFront | src/components/DesignCanvas.jsx:107-112 | the length is kept; an item with the id ends strictly above every other item and keeps its other fields; every other item is unchanged |
| CanvasModel.BringToFrontMax | src/components/DesignCanvas.jsx:107-112 | the activated item's z-index becomes the old maximum plus one, which is the new maximum, so activating again raises it again |
| DesignCanvas.Canvas.Activate | src/components/DesignCanvas.jsx:104-113 | the selection becomes the id and the items become `BringToFront` of the old items |
| CanvasModel.DuplicateOf | src/components/DesignCanvas.jsx:222-231 | the copy equals the item except for a new time-stamp id, a position shifted by (+20, +20), and a z-index above every item's and at least 1 |
| DesignCanvas.Canvas.Duplicate | src/components/DesignCanvas.jsx:222-233 | the copy is appended and the existing items are unchanged |
| DesignCanvas.Canvas.Clear | src/components/DesignCanvas.jsx:214-219 | a confirmed clear empties the items and the selection; a cancelled one changes nothing |
| CanvasModel.ClampZoom | src/components/DesignCanvas.jsx:206-211 | the result lies in [0.5, 2], equals the input inside that range, and is clamped to the nearer end outside it |
| DesignCanvas.Canvas.Zoom | src/components/DesignCanvas.jsx:206-211 | the zoom becomes the clamped sum, so it stays within [0.5, 2] |
| DesignCanvas.Canvas.ToggleColorPicker | src/components/DesignCanvas.jsx:173-176 | the colour picker flips and the typography picker ends off, so the two are never both on |
| DesignCanvas.Canvas.ToggleTypoPicker | src/components/DesignCanvas.jsx:179-182 | the typography picker flips and the colour picker ends off |
| CanvasModel.ChannelHex | src/components/DesignCanvas.jsx:138 | a channel is written as its high and then its low hexadecimal digit, that is, `toString(16).padStart(2, '0')` |
| CanvasModel.RgbHexPadded | src/components/DesignCanvas.jsx:138 | the colour is '#' followed by the three padded channels in r, g, b order |
| CanvasModel.RgbHexWellFormed | src/components/DesignCanvas.jsx:138 | the colour is '#' and six lower-case hexadecimal digits |
| CanvasModel.RgbHexRoundTrip | src/components/DesignCanvas.jsx:138 | parsing the colour string gives back the pixel |
| CanvasModel.RgbHexInjective | src/components/DesignCanvas.jsx:138 | two pixels with the same colour string are the same pixel |
| CanvasModel.SampledColors | src/components/DesignCanvas.jsx:136-142 | de-duplication yields no more colours than pixels |
| CanvasModel.SampledColorsSpec | src/components/DesignCanvas.jsx:136-142 | the colours are distinct, each is `#rrggbb`, and every sampled pixel's colour is among them |
| CanvasModel.SampledColorsAreSampled | src/components/DesignCanvas.jsx:136-142 | every colour found is some sampled pixel's colour and parses back to that pixel |
| DesignCanvas.ColorCount | src/components/DesignCanvas.jsx:128-142 | five sampled pixels yield between one and five colours |
| DesignCanvas.Canvas.ExtractColorFromImage | src/components/DesignCanvas.jsx:116-152 | a missing image element or a pixel read that throws changes nothing; otherwise the distinct sampled colours are appended after the earlier ones and handed on |
| DesignCanvas.Canvas.ExtractTypography | src/components/DesignCanvas.jsx:155-170 | the three preset styles are appended and the typography picker turns off |
| DesignCanvas.Canvas.ClickItem | src/components/DesignCanvas.jsx:322-331 | with the colour picker on, the click extracts colours and turns the picker off unless the read threw; else with the typography picker on, it extracts typography; else it activates the item |
| Seqs.Dedup | src/components/DesignCanvas.jsx:142 | `[...new Set(s)]` has no element twice, holds exactly the elements of `s`, and is no longer than `s` |
| Seqs.DedupFirstOccurrenceOrder | src/components/DesignCanvas.jsx:142 | elements come in the order of their first occurrence in the input |
| Seqs.DedupIdempotent | src/components/DesignCanvas.jsx:142 | de-duplicating twice is de-duplicating once |
| Seqs.DistinctKeysAreDedup | src/ChatUI.jsx:233-243 | the categories of a grouping, in `Object.entries` order, are the de-duplicated list of the elements' categories |
| Seqs.DistinctKeysSpec | src/ChatUI.jsx:233-243 | no category twice; every element's category is present, and each present category is some element's |
| Grouping.GroupBy | src/ChatUI.jsx:233-240 | the grouping loop's key list is the distinct keys, its dictionary has exactly those keys, and each holds that key's elements in list order |
| Grouping.GroupConcat | src/ChatUI.jsx:236-239 | the group of a concatenation is the concatenation of the groups, so each group keeps the list order |
| Grouping.GroupMembers | src/ChatUI.jsx:236-239 | an element is in a key's group exactly when it is in the list with that key |
| Grouping.GroupsPartition | src/ChatUI.jsx:233-240 | the groups, taken in key order, hold every element exactly as often as the list does |
| Palette.TokenLength | src/ChatUI.jsx:148 | a token at the head is '#' and six hexadecimal digits when six are there, else '#' and three, else there is none |
| Palette.HexTokens | src/ChatUI.jsx:148-149 | every token found is a `#RGB` or `#RRGGBB` colour token |
| Palette.ShortTokenExample | src/ChatUI.jsx:148-149 | with only five digits, the three-digit alternative is taken: `#12345` yields `#123` |
| Palette.TokenFirst | src/ChatUI.jsx:148-149 | a token at the head of the text is found first, and the scan resumes right behind it |
| Palette.HashFreeNoTokens | src/ChatUI.jsx:148-149 | text without '#' contributes no token |
| Palette.ExtractColorPalette | src/ChatUI.jsx:147-151 | the result is the current palette, or a non-empty list of colour tokens; a non-empty palette never yields an empty result |
| Palette.MergeNew | src/ChatUI.jsx:171-174 | the old list is a prefix of the merged one |
| Palette.NewColorsSpec | src/ChatUI.jsx:166 | the appended colours are exactly the input colours not already in the old list, and there are no more of them than input colours |
| Palette.NewColorsConcat | src/ChatUI.jsx:166 | the filter works colour by colour, so it keeps the input order |
| Palette.NoNewColors | src/ChatUI.jsx:166 | colours that are all known already add nothing |
| Palette.MergeNewSpec | src/ChatUI.jsx:162-176 | the merged list holds exactly the old and the input colours, and merging the same colours again changes nothing |
| Palette.MergeKeepsDistinct | src/ChatUI.jsx:162-176 | merging distinct colours into a list without repeats keeps it free of repeats |
| Palette.NewColorsDistinct | src/ChatUI.jsx:166 | the colours appended are distinct when the input is |
| Palette.CssLinesSnoc | src/ChatUI.jsx:341-343 | each colour adds one line after the lines of the colours before it |
| Palette.CssLineNumbering | src/ChatUI.jsx:341-343 | the line of the `i`-th colour is numbered `i + 1` in decimal, and the number reads back as `i + 1` |
| Palette.CssLinesTokens | src/ChatUI.jsx:341-343 | scanning the palette lines finds exactly the palette's colours, in order |
| Palette.ExportThenExtract | src/ChatUI.jsx:339-344 | scanning the exported CSS text finds exactly the palette again, so extracting a palette from its own export gives that palette back |
| Selection.Normalize | src/ChatUI.jsx:309-313 | the added entry borrows each missing address from the other field and keeps every other field |
| Selection.Unmatching | src/ChatUI.jsx:301-306 | the entries kept are exactly those that do not match the asset |
| Selection.UnmatchingDrops | src/ChatUI.jsx:300-306 | when an entry matches, the list gets shorter |
| Selection.Toggle | src/ChatUI.jsx:289-316 | when an entry matches, every matching entry goes and nothing is added; otherwise the normalised asset is appended |
| Selection.SameAssetSymmetric | src/ChatUI.jsx:292-297 | the cross-field comparison does not depend on the order of the two assets |
| Selection.NormalizeMatches | src/ChatUI.jsx:292-313 | an asset with an address matches its own normalised entry |
| Selection.UnmatchingAll | src/ChatUI.jsx:301-306 | when no entry matches, the filter keeps the whole list |
| Selection.ToggleTwice | src/ChatUI.jsx:289-316 | toggling an asset with an address twice, from a selection that does not hold it, restores the selection |
| Selection.ToggleBlankTwice | src/ChatUI.jsx:289-316 | an asset with neither address never matches, so each toggle appends another entry |
| ChatUI.Compose | src/ChatUI.jsx:183-187 | the input is a prefix of the user's text; with no preference set and the colour black, the text is the input itself |
| ChatUI.ComposeBars | src/ChatUI.jsx:183-187 | when neither the input nor a preference holds '\|', the text holds one '\|' for each preference that is set, the colour counting only when it is not '#000000' |
| ChatUI.OccurrencesConcat | src/ChatUI.jsx:183-187 | counting a character over a concatenation adds the counts of the parts |
| ChatUI.PartBars | src/ChatUI.jsx:184-187 | a preference part holds one '\|' when set and none otherwise |
| ChatUI.Classify | src/ChatUI.jsx:228-229 | a non-empty `fileType` wins; otherwise it is 'vector' exactly when the url ends in '.svg', else 'psd' exactly when it ends in '.psd', else 'image' |
| ChatUI.Process | src/ChatUI.jsx:226-230 | each image keeps its fields and gets its classified format, in list order |
| ChatUI.ProcessIdempotent | src/ChatUI.jsx:226-230 | the format does not depend on an earlier format, so processing twice is processing once |
| ChatUI.CategoryMessages | src/ChatUI.jsx:243-252 | one bot message per category, each with that category's images |
| ChatUI.GroupMessages | src/ChatUI.jsx:233-252 | there is one message per distinct category |
| ChatUI.ImagesOfCategories | src/ChatUI.jsx:243-252 | the images of the category messages, one message after another, are the groups gathered in key order |
| ChatUI.GroupMessagesPartition | src/ChatUI.jsx:233-252 | the category messages carry every processed image exactly once |
| ChatUI.GroupMessageMembers | src/ChatUI.jsx:233-252 | a category message holds exactly the processed images of its category ('Design Inspiration' when none is set) |
| ChatUI.GroupMessageTitles | src/ChatUI.jsx:243-252 | every category message has a non-empty title and no two share one |
| ChatUI.PaletteAfter | src/ChatUI.jsx:218-223 | the palette becomes the extracted colours when there are any, else the server's non-empty palette, else it stays |
| ChatUI.ReplyMessageCount | src/ChatUI.jsx:210-272 | a complete reply adds one bot message per category and then the suggestions message; a failure, a reply without suggestions or images, or one whose grouping throws on an inherited category name adds exactly the error message |
| ChatUI.InheritedCategoryFails | src/ChatUI.jsx:233-240 | a reply whose image is filed under `constructor` adds only the error message, yet the palette is already the one extracted from its suggestions |
| ChatUI.MessageKindsInteractive | src/ChatUI.jsx:356-359 | a category message is interactive, the suggestions message is interactive exactly when its palette is non-empty, and a plain text message is not |
| ChatUI.ReplyInteractive | src/ChatUI.jsx:356-359 | while the palette is non-empty, every message of a complete reply is interactive and the single message of any other reply is not |
| ChatUI.ServerPaletteUnused | src/ChatUI.jsx:218-260 | while the palette is non-empty, extraction never yields an empty list, so the server's palette is neither taken nor shown |
| ChatUI.ReplyPaletteKept | src/ChatUI.jsx:218-223 | a reply never empties a non-empty palette |
| ChatUI.BuildGroupMessages | src/ChatUI.jsx:243-252 | the `forEach` over the grouped images produces `GroupMessages` |
| ChatUI.ReceiveReply | src/ChatUI.jsx:210-272 | the terms are taken first, then the palette, then the messages; a failure at the scan, the `map` or the grouping (an inherited category name) ends in the error message, keeping what was already taken |
| ChatUI.Dashboard.constructor | src/ChatUI.jsx:24-71 | the initial greeting, empty input, empty preferences with colour '#000000', the six-grey palette, the five related terms, images on and vectors and psd off |
| ChatUI.Dashboard.ToggleAssetType | src/ChatUI.jsx:154-159 | only that kind's switch flips, and a kind never set becomes on |
| ChatUI.Dashboard.HandleExtractColors | src/ChatUI.jsx:162-176 | an absent or empty list changes nothing; otherwise the new colours are merged into both the extracted colours and the palette |
| ChatUI.Dashboard.ToggleImageSelection | src/ChatUI.jsx:289-322 | the selection is toggled and the canvas ends shown |
| ChatUI.Dashboard.ExportColorPalette | src/ChatUI.jsx:339-344 | the loop builds `:root {`, one `  --color-k: c;` line per colour numbered from 1, and `}` |
| ChatUI.Dashboard.SendMessage | src/ChatUI.jsx:179-276 | a blank input sends nothing; otherwise the composed user message and then the reply's messages are appended, the input is cleared, and the palette and related terms follow the reply, also when the grouping throws after they were taken |
| ChatLinks.Match | src/components/ChatArea.jsx:7 | a match consumes at least one character |
| ChatLinks.MatchSound | src/components/ChatArea.jsx:7 | a match is exactly `<a`, white space, `href="`, a quote-free address, `"`, and then text with no `target=` before the next `>` |
| ChatLinks.HeaderRewritten | src/components/ChatArea.jsx:6-9 | a header followed by `target=` before the next `>`, whose address holds no '<', is copied unchanged; any other header becomes `<a href="U" target="_blank" rel="noopener noreferrer">U</a>`, and the text after it is rewritten in turn |
| ChatLinks.UnmatchedUnchanged | src/components/ChatArea.jsx:5-10 | text in which no position starts a match is returned unchanged |
| ChatLinks.RewriteKeepsUnmatched | src/components/ChatArea.jsx:6-9 | a position where no match starts still starts none once the text behind it is rewritten |
| ChatLinks.RewriteLeavesNoMatch | src/components/ChatArea.jsx:5-10 | when no captured address holds '<', the rewritten text has no match left |
| ChatLinks.RewriteIdempotent | src/components/ChatArea.jsx:5-10 | when no captured address holds '<', rewriting twice is rewriting once |
| ChatLinks.RewriteNotIdempotent | src/components/ChatArea.jsx:5-10 | without that proviso, the text `<a href="<a href="` is rewritten again by a second pass |
| ChatArea.ShownTerms | src/components/ChatArea.jsx:362 | at most the first five related terms are shown |
| ChatArea.AppendTerm | src/components/ChatArea.jsx:366 | the old input is a prefix and the term a suffix; a non-empty input gains a single space before the term |
| ChatArea.ClicksJoin | src/components/ChatArea.jsx:366 | clicking non-empty terms from an empty input spells them out separated by single spaces |
| ChatArea.EmptyTermSwallowed | src/components/ChatArea.jsx:366 | after an empty term, the next click replaces the still-empty input, so no separator is written |
| ChatArea.SpanClass | src/components/ChatArea.jsx:171-173 | a tile gets 'row-span-2' exactly when the layout is masonry and its index is a multiple of 3 |
| ChatArea.TallTilesCount | src/components/ChatArea.jsx:171-173 | among `n` masonry tiles, `(n + 2) / 3` span two rows; in a grid none do |
| ChatArea.FormatGrid | src/components/ChatArea.jsx:146-154 | an absent or empty list yields nothing; a list with an image filed under an inherited property name throws, and only then; otherwise the `reduce` yields the categories in first-appearance order, each with its images in list order |
| ChatArea.GridPartition | src/components/ChatArea.jsx:149-154 | the grid's groups hold every image exactly once, and no category heading is empty |
| ChatArea.DisplayedHtml | src/components/ChatArea.jsx:251-256 | nothing is shown for an absent or empty text; a bot's text has its links made clickable and a user's text is shown as it is |
| ChatArea.BotTextShown | src/components/ChatArea.jsx:76-78 | a bot text without a link header is shown unchanged, and one whose addresses hold no '<' is a fixed point of the rewrite |
| ChatArea.HandleSubmit | src/components/ChatArea.jsx:37-68 | AI generation runs exactly when `includeAI` is set, otherwise the message is sent; a blank input does nothing, a failed request only logs, and otherwise one bot message is added with the reply's images, text, heading and palette |
| Text.DecimalRoundTrip | src/ChatUI.jsx:342 | the decimal numeral of a number reads back as that number |

## Left out

- Network I/O: the `axios` search request and the `fetch` of the AI generation request. Their outcomes are parameters (`SearchReply`, `AiReply`). The query string and the asset-type flags that the search request sends are not modelled.
- Asynchrony: the `await` points, the transient `loading` flag during a request, and interleaving with other handlers or stale closures. `SendMessage` applies a reply in one step.
- Rendering: the DOM, JSX markup, framer-motion, `html2canvas` raster export, `Blob`/object-URL downloads, the `confirm()` dialog (a parameter), scroll and click-outside effects.
- The pixel read (`document.createElement('canvas')`, `drawImage`, `getImageData`). A `Sample` value stands for its outcome.
- `Date.now()` and `Math.random()`: they are parameters. No uniqueness of time-stamp ids is claimed. The z-index `addImageToCanvas` gives, the item count, can collide with an existing one.
- Floating point: positions and zoom are reals, so the drift of repeated ±0.1 zoom steps is not modelled.
- `handleKeyPress` only forwards Enter to `sendMessage`.
- `Object.entries` lists integer-like keys before the others. The model lists every category in first-appearance order, which differs only for a category named like an array index.
- Rotating, resizing and saving text on canvas items, and grid auto-arrange: no shown source file defines these. `src/components/MoodboardItem.jsx` and the other presentational components are not part of this model.
- The `onExtractColor` callback: `DesignCanvas.Canvas.ExtractColorFromImage` returns the colours it hands on. `ChatUI.Dashboard.HandleExtractColors` is the handler that receives them.
- ChatLinks.RewriteIdempotent: holds only when no captured address contains '<'. `ChatLinks.RewriteNotIdempotent` shows that the unconditional claim fails.
- Selection.ToggleTwice: holds only for an asset with an address. `Selection.ToggleBlankTwice` states what happens to one without.
- ChatArea.ClicksJoin: holds only for non-empty terms. `ChatArea.EmptyTermSwallowed` states what an empty term does.
- ChatLinks.HeaderRewritten: the copied case is stated only for an address without '<'. Such an address can hold the start of a further match, and `ChatLinks.RewriteNotIdempotent` shows one.
- DesignCanvas.Canvas.ClickItem: with the colour picker on and a pixel read that throws, the picker stays on. The source does not catch that exception, so the statement turning the picker off is never reached.
