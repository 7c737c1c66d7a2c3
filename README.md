# Reels Text Designer: a verified model of the text and font core

Reels Text Designer is a Telegram mini-app. It sets a short text in a chosen
font, optionally restyled with "fancy" Unicode characters, and renders it for
Instagram Reels. This project models the parts of it that decide *what* is
shown and loaded, and proves what they promise:

- **The Unicode style engine** (`unicodeStyles.ts`) is modelled in
  `unicode_styles.dfy` and `style_registry.dfy`. It covers:
  - code-point remaps onto the Mathematical Alphanumeric Symbols block and
    the Fullwidth Forms block;
  - combining-mark decoration;
  - the Zalgo effect, with its random draws made an explicit input;
  - letter spacing and glyph wrapping;
  - the registry of 49 styles, its lookup by id, `applyStyle`, and the
    Cyrillic / Latin-only style lists.
- **The App's own state logic** (`App.tsx`) is in `app_logic.dfy`:
  - its private style converter;
  - the favourite toggle;
  - selecting the current font;
  - the tab and Cyrillic filters;
  - the paging of the font list (80 at a time, reset when the tab changes to
    another one).

  The React state it uses becomes the `AppState` class.
- **The Google Fonts stylesheet loader** (`googleFontsApi.ts`) is in
  `google_fonts_api.dfy`. It is a class `FontLoader` holding the module's
  `loadedFamilies` set and the links appended to the document head, with
  the single, multiple and batched loads as methods. Each method is proved
  against a function on a state snapshot (`LoaderState`).
- **The font proxy's archive logic** (`api/font.js`) is in `font_archive.dfy`.
  It picks the file of a zip archive to serve and the Content-Type to serve
  it with.
- **Font records and the shipped fonts** (`types.ts` and `constants.ts`)
  are in `font_types.dfy`.
- **Helpers:** `sequences.dfy` holds Option and the sequence helpers, mirroring
  JavaScript's `filter`, `map`, `find` and `Array.from(new Set(..))`, and the
  concatenation of chunks.

Text is a sequence of Unicode code points: the units that `Array.from` splits a
string into. Strings that are only compared (ids, family names, entry names) are
Dafny `string`s.

## Model

| member | source | states |
|---|---|---|
| UnicodeStyles.MapLatinRange | unicodeStyles.ts:56-63 | A–Z go to `upper + (c − 65)` and a–z to `lower + (c − 97)`; digits go to `digit + (c − 48)` only when a digit base is given; every other code point (and U+0000) is unchanged |
| UnicodeStyles.MapLatinRangeRoundTrip | unicodeStyles.ts:56-63 | On an alphabet outside ASCII with non-overlapping ranges, every code point not already in the target alphabet is recovered from its image: no two code points outside the target alphabet map to the same glyph |
| UnicodeStyles.ToFullwidth | unicodeStyles.ts:66-72 | Space goes to U+3000; U+0021..U+007E go to U+FF01..U+FF5E at the same offset; everything else is unchanged |
| UnicodeStyles.FullwidthRoundTrip | unicodeStyles.ts:66-72 | The conversion is undone on every code point that is not itself U+3000 or in U+FF01..U+FF5E |
| UnicodeStyles.AddCombining | unicodeStyles.ts:75-77 | The output has length 2n; even positions hold the input in order, odd positions hold the mark (spaces and newlines included) |
| UnicodeStyles.AddMultipleCombiningLength | unicodeStyles.ts:80-82 | With k marks the output has length n·(1+k) |
| UnicodeStyles.AddMultipleCombiningAt | unicodeStyles.ts:80-82 | Block i of the output is input code point i followed by all the marks in order |
| UnicodeStyles.AddCombiningIsOneMark | unicodeStyles.ts:75-82 | Decorating with one mark is the multiple-mark decoration with a one-element list |
| UnicodeStyles.AddMultipleCombiningBases | unicodeStyles.ts:80-82 | Taking every (1+k)-th code point of the output gives back the input |
| UnicodeStyles.AddSpaces | unicodeStyles.ts:101-103 | The output has length 2n−1 (0 for empty input); the input sits at even positions and a space at every odd position |
| UnicodeStyles.AddSpacesBases | unicodeStyles.ts:101-103 | Every second code point of the output is the input |
| UnicodeStyles.WrapCharsLength | unicodeStyles.ts:106-108 | The output has length n + (\|left\|+\|right\|)·(number of non-space code points) |
| UnicodeStyles.WrapCharsRoundTrip | unicodeStyles.ts:106-108 | When the left glyphs do not start with a space, unwrapping recovers the input |
| UnicodeStyles.SourcePoolsFacts | unicodeStyles.ts:52-53 | The up pool has 48 marks and the down pool 40; both are non-empty |
| UnicodeStyles.PoolMarksAreDiacritics | unicodeStyles.ts:52-53 | Every pool mark lies in the Combining Diacritical Marks block U+0300..U+036F |
| UnicodeStyles.ZalgoMarks | unicodeStyles.ts:92-95 | `count` rounds add at most 2·count marks |
| UnicodeStyles.ZalgoMarksArePoolMarks | unicodeStyles.ts:92-95 | Every added mark comes from the up or the down pool |
| UnicodeStyles.ZalgoCodePoint | unicodeStyles.ts:89-96 | A space or newline is copied alone; any other code point is kept first, followed by at most 2·count marks |
| UnicodeStyles.ZalgoLengthBounds | unicodeStyles.ts:85-98 | n ≤ length of the output ≤ n·(1+2·count) |
| UnicodeStyles.ZalgoTextAddsOnlyPoolMarks | unicodeStyles.ts:85-98 | Every output code point is an input code point or a pool mark |
| UnicodeStyles.StackMarks | unicodeStyles.ts:91-95 | The inner loop yields the code point followed by its `count` rounds of marks, and consumes exactly 2·count draws |
| UnicodeStyles.ToZalgo | unicodeStyles.ts:85-98 | The loop over the text yields the Zalgo text of the intensity's count (light 2, medium 4, heavy 8), from the source's pools and the given draws |
| UnicodeStyles.ZalgoKeepsBlanks | unicodeStyles.ts:90 | A text of spaces and newlines comes out unchanged |
| UnicodeStyles.ZalgoStripRecoversInput | unicodeStyles.ts:85-98 | When the input has no pool marks, removing the pool marks from the output gives back the input |
| StyleRegistry.RegistryIdsDistinct | unicodeStyles.ts:111-512 | The registry has 49 styles and no two of them share an id |
| StyleRegistry.RegistryConsistent | unicodeStyles.ts:111-512 | `supportsCyrillic` is false exactly for the remapping styles; a Latin-mapping style has a digit base exactly when its id is bold, double, mono, sansSerif or sansSerifBold |
| StyleRegistry.GetStyleById | unicodeStyles.ts:515-517 | A found style carries the requested id |
| StyleRegistry.GetStyleByIdSpec | unicodeStyles.ts:515-517 | The lookup fails exactly when no style has the id; otherwise it returns the first style with that id |
| StyleRegistry.LookupFindsEntry | unicodeStyles.ts:515-517 | Looking up the id of any registry entry returns that entry |
| StyleRegistry.ApplyStyle | unicodeStyles.ts:520-524 | `applyStyle` leaves the text unchanged when no style of `UNICODE_STYLES` carries the id |
| StyleRegistry.ApplyUnknownStyle | unicodeStyles.ts:520-524 | An id that no style carries leaves the text unchanged |
| StyleRegistry.ApplyStyleAt | unicodeStyles.ts:520-524 | Applying the id of entry i runs entry i's transform |
| StyleRegistry.EveryStyleKeepsEmptyText | unicodeStyles.ts:111-524 | Every style maps the empty text to the empty text |
| StyleRegistry.GetCyrillicStyles | unicodeStyles.ts:527-529 | A style is in the list exactly when it is in the registry and supports Cyrillic |
| StyleRegistry.GetLatinOnlyStyles | unicodeStyles.ts:532-534 | A style is in the list exactly when it is in the registry and does not support Cyrillic |
| StyleRegistry.CyrillicAndLatinOnlyPartition | unicodeStyles.ts:527-534 | Both lists are subsequences of the registry (registry order), and their lengths add up to 49 |
| StyleRegistry.DecorationKeepsText | unicodeStyles.ts:75-108 | Every non-remapping transform keeps the input as a subsequence of its output |
| StyleRegistry.RemapKeepsNonAscii | unicodeStyles.ts:56-72 | A remapping transform preserves length and leaves every code point ≥ 127 where it was |
| StyleRegistry.RemapMovesA | unicodeStyles.ts:56-72 | A remapping transform does not keep "A" |
| StyleRegistry.SupportsCyrillicIffKeepsText | unicodeStyles.ts:111-512 | A style supports Cyrillic exactly when it keeps every input text, for every draw stream, as a subsequence of its output |
| StyleRegistry.LatinOnlyStylesKeepNonAscii | unicodeStyles.ts:111-512 | A Latin-only style preserves length and every code point ≥ 127 (so Cyrillic passes through untouched) |
| StyleRegistry.DigitsChangeIffDigitStyle | unicodeStyles.ts:120-223 | A Latin-mapping style changes a digit exactly when its id is bold, double, mono, sansSerif or sansSerifBold |
| StyleRegistry.LatinStylesRoundTrip | unicodeStyles.ts:120-223 | Each Latin-mapping style preserves length, and its output can be mapped back code point by code point |
| StyleRegistry.BoldMapsCapitalA | unicodeStyles.ts:120-127 | "A" in bold is U+1D400 |
| StyleRegistry.ScriptMapsBLinearly | unicodeStyles.ts:144-151 | "AB" in script is U+1D49C U+1D49D: the map is linear, even across unassigned code points |
| StyleRegistry.FullwidthMapsSpace | unicodeStyles.ts:224-231 | "A 1" in fullwidth is U+FF21 U+3000 U+FF11 |
| StyleRegistry.UnderlineDecoratesCyrillic | unicodeStyles.ts:234-241 | "Ж " underlined is Ж, U+0332, space, U+0332: spaces are decorated too |
| StyleRegistry.SpacedSeparatesCodePoints | unicodeStyles.ts:416-422 | "Hi" spaced is "H i" |
| StyleRegistry.StarsSkipSpaces | unicodeStyles.ts:456-462 | "x y" with stars is ★x★ ★y★: the space is not wrapped |
| StyleRegistry.ZalgoWithoutKeptDrawsIsIdentity | unicodeStyles.ts:406-412 | Heavy Zalgo adds nothing when no draw passes the threshold |
| StyleRegistry.ZalgoIgnoresRejectedDraws | unicodeStyles.ts:85-98 | With every draw rejected, the Zalgo text is the input |
| StyleRegistry.NoMarksWithoutKeptDraws | unicodeStyles.ts:92-95 | With every draw rejected, no mark is added |
| AppLogic.ConvertChar | App.tsx:276-296 | The per-character switch keeps every code point ≥ 127, and keeps every code point for 'normal' and for any value outside the eight styles |
| AppLogic.TransformTextToUnicodeStyle | App.tsx:258-299 | The App's converter preserves length and leaves every code point ≥ 127 unchanged |
| AppLogic.UnknownAppStyleIsIdentity | App.tsx:292-294 | "normal", and any value outside the eight styles, leaves the text unchanged |
| AppLogic.AppStyleAgreesWithRegistry | App.tsx:258-299 | For each of the App's eight style values, the App's converter gives the same text as the registry style with that id |
| AppLogic.NormalAgrees | App.tsx:292-294 | "normal" agrees with the registry's normal style: the identity |
| AppLogic.BoldAgrees | App.tsx:278-279 | The App's bold constants give the registry's bold style |
| AppLogic.ItalicAgrees | App.tsx:280-281 | The App's italic constants give the registry's italic style |
| AppLogic.ScriptAgrees | App.tsx:282-283 | The App's script constants give the registry's script style |
| AppLogic.FrakturAgrees | App.tsx:284-285 | The App's fraktur constants give the registry's fraktur style |
| AppLogic.DoubleAgrees | App.tsx:286-287 | The App's double-struck constants give the registry's double style |
| AppLogic.MonoAgrees | App.tsx:288-289 | The App's monospace constants give the registry's mono style |
| AppLogic.FullwidthAgrees | App.tsx:290-291 | The App's fullwidth conversion gives the registry's fullwidth style |
| AppLogic.Toggled | App.tsx:194-196 | After the toggle, `id` is a favourite exactly when it was not before; every other id is a favourite exactly when it was before |
| AppLogic.ToggleKeepsOrder | App.tsx:194-196 | Adding appends at the end; removing keeps the others in their order |
| AppLogic.ToggleTwiceRestores | App.tsx:194-196 | Adding an id and then toggling it again restores the list |
| AppLogic.ToggleKeepsNoDuplicates | App.tsx:194-196 | A list without duplicates stays without duplicates |
| AppLogic.SelectedFont | App.tsx:115-116 | The selected font carries the selected id, or is the first shipped font |
| AppLogic.SelectedFontSpec | App.tsx:115-116 | With no font of that id, the result is the first shipped font; otherwise it is the first font with that id in shipped, Google, uploaded order |
| AppLogic.InitialFontsWin | App.tsx:115-116 | A shipped font's id always selects that shipped font, whatever Google or the user added |
| AppLogic.TabFonts | App.tsx:377-381 | 'all' gives every font; 'favorites' gives exactly the fonts whose id is a favourite; every other tab gives nothing |
| AppLogic.TabFontsIsSubsequence | App.tsx:377-381 | The tab's list is a subsequence of all fonts, in their order |
| AppLogic.CyrillicFilteredFonts | App.tsx:383-389 | On 'upload', or with the switch off, nothing is filtered; otherwise exactly the non-Google fonts and the Google fonts listing 'cyrillic' or 'cyrillic-ext' remain |
| AppLogic.CyrillicFilterIsSubsequence | App.tsx:383-389 | The filtered list is a subsequence of its input |
| AppLogic.DisplayedFonts | App.tsx:391 | On 'upload' the whole list is shown; otherwise the first min(visible, length) fonts |
| AppLogic.ShowMoreShownIffMoreFonts | App.tsx:657 | The "show more" button appears exactly when not on 'upload' and the visible count is below the list length |
| AppLogic.NextVisibleCount | App.tsx:409 | The new count is min(prev + 80, length) |
| AppLogic.ShowMoreStaysAtEnd | App.tsx:659 | Once the whole list is visible, further presses change nothing |
| AppLogic.ShowMoreReachesEnd | App.tsx:659 | n presses (or scrolls to the bottom), with 80·n at least the number of fonts still hidden, make the whole list visible |
| AppLogic.AppState.constructor | App.tsx:29-43 | Initially the tab is 'all', there are no favourites and 80 fonts are visible |
| AppLogic.AppState.ToggleFavorite | App.tsx:194-196 | The favourites become the toggled list; tab and count are unchanged |
| AppLogic.AppState.SetActiveTab | App.tsx:101-103 | Selecting a tab sets it and keeps the favourites; the visible count is reset to 80 when the tab differs from the current one, and kept when the current tab is selected again |
| AppLogic.AppState.ShowMore | App.tsx:659 | The visible count becomes min(prev + 80, length) |
| AppLogic.AppState.HandleListScroll | App.tsx:401-411 | With the list mounted, not on 'upload' and within 250 pixels of the bottom (fractional pixel values included), the count grows as with "show more"; otherwise nothing changes |
| FontTypes.Preset | constants.ts:4-13 | A shipped font has its given id, name, family and source, and every optional field (subsets, category, url, tproductUrl, author, license, tags) absent |
| FontTypes.InitialFontsFacts | constants.ts:4-13 | There are 8 shipped fonts; the first is Montserrat from Google; their ids are distinct |
| GoogleFontsApi.AfterLoadFont | googleFontsApi.ts:43-54 | Loading never forgets a family and only appends to the head; afterwards the family is loaded, or already had its own link |
| GoogleFontsApi.AfterLoadMultiple | googleFontsApi.ts:56-58 | Loading a list one family at a time never forgets a family and only appends to the head; afterwards every family of the list is loaded or has its own link |
| GoogleFontsApi.LoadFontIdempotent | googleFontsApi.ts:43-54 | Loading keeps the state valid (every linked family is marked loaded), leaves the family loaded, and a second call changes nothing |
| GoogleFontsApi.FontLoader.LoadGoogleFont | googleFontsApi.ts:43-54 | The method makes exactly the state change of `AfterLoadFont` |
| GoogleFontsApi.LoadMultipleSpec | googleFontsApi.ts:56-58 | From a valid state, loading a list marks all of it loaded and appends one link per new family, in order of first occurrence |
| GoogleFontsApi.FontLoader.LoadMultipleGoogleFonts | googleFontsApi.ts:56-58 | The loop makes the state change of loading the families one by one, left to right |
| GoogleFontsApi.Unique | googleFontsApi.ts:61 | `unique` has no duplicates and holds exactly the non-empty requested families not yet loaded; it is a subsequence of the request and lists the families in the order of their first occurrence in it |
| GoogleFontsApi.AfterLoadBatch | googleFontsApi.ts:60-78 | A batch never forgets a family and only appends to the head |
| GoogleFontsApi.FlattenChunks | googleFontsApi.ts:64-65 | The chunks concatenate back to the list |
| GoogleFontsApi.ChunkSizes | googleFontsApi.ts:64-65 | Every chunk is non-empty and at most `perRequest` long; all but the last are exactly `perRequest` long |
| GoogleFontsApi.LoadBatchSpec | googleFontsApi.ts:60-78 | A batch marks exactly `unique` loaded and appends one link per chunk of it; when nothing is fresh it changes nothing |
| GoogleFontsApi.BatchLinksAreChunks | googleFontsApi.ts:60-78 | The families of the batch links, in link order, are `unique`, and the chunks have the sizes the loop produces |
| GoogleFontsApi.LoadBatchIdempotent | googleFontsApi.ts:60-78 | A batch keeps the state valid, and repeating it with any chunk size appends nothing |
| GoogleFontsApi.FontLoader.LoadGoogleFontsBatch | googleFontsApi.ts:60-78 | The loop makes exactly the state change of `AfterLoadBatch` |
| FontArchive.RawExtensionSpec | api/font.js:95 | The extension pattern has at most one match: a suffix made of a dot and one or more characters that are not a dot, '/' or '\'. The extension is that match, and '' exactly when there is none |
| FontArchive.UpperCaseExtensionIsFolded | api/font.js:95 | "Bold.WOFF2" has the extension ".woff2" |
| FontArchive.DotInDirectoryIsNoExtension | api/font.js:95 | "v1.2/otf" has no extension |
| FontArchive.TrailingDotIsNoExtension | api/font.js:95 | "font." has no extension |
| FontArchive.ExtensionOf | api/font.js:95 | The extension is empty exactly when the name has no dot followed by one or more characters other than '.', '/' and '\\' up to its end; otherwise it starts with the dot and has the length of the match |
| FontArchive.ToCandidate | api/font.js:93-98 | A candidate keeps the entry and its name, takes the extension of the name, and takes the header size, or 0 when the size is missing |
| FontArchive.Candidates | api/font.js:91-99 | There are at most as many candidates as entries, and each has one of the four served extensions |
| FontArchive.CandidatesInArchiveOrder | api/font.js:91-99 | The entries of the candidates, and of the candidates of any one extension, occur in the archive in that order, so the stable sort breaks size ties by archive position |
| FontArchive.CandidatesSpec | api/font.js:91-99 | A record is a candidate exactly when it is built from a non-directory entry of the archive whose extension is .woff2, .woff, .otf or .ttf |
| FontArchive.SortBySizeDescending | api/font.js:104 | The sort yields a permutation of its input, ordered by non-increasing size |
| FontArchive.SortedFrontIsFirstLargest | api/font.js:104-105 | After the stable sort, the front element is the earliest of the largest |
| FontArchive.PickAmongSpec | api/font.js:101-108 | The pick is empty exactly when there is no candidate. Otherwise it is a candidate in the first preferred format that any candidate has, and the earliest largest file of that format |
| FontArchive.PickBestFontFile | api/font.js:89-109 | The loop with its early return computes that pick; the result is a non-directory entry of the archive |
| FontArchive.PickIsAFile | api/font.js:89-109 | A non-directory entry in a served format guarantees a pick, and the pick is never a directory |
| FontArchive.ContentTypeForExt | api/font.js:111-124 | The type is "font/" + the extension without its dot for the four served extensions, and application/octet-stream for every other string |
| FontArchive.PickedFileHasFontType | api/font.js:89-124 | A picked file is always served with a font type |

## Left out

- Rendering is not modelled: the canvas drawing, the JSX tree and the Telegram WebApp calls are display and platform code.
- Persistence and uploads are not modelled: localStorage, `FontFace` loading, file uploads and the clipboard are browser I/O.
- The Google font id derivation (App.tsx:81) is not modelled. `fetchGoogleFonts` is network I/O and is not modelled either.
- The network glue of api/font.js is not modelled: the request handler, the Google Drive download and the page scraping. The zip library is represented only by the entries it reports.
- scripts/ is not part of this model.
- Link text is opaque: the stylesheet URL, `encodeURIComponent` and the `data-font` attributes are not modelled. A link is modelled by the families it requests.
- `document.querySelector` is modelled as a search of the links this loader appended. Links added to the page by other code are not seen. GoogleFontsApi.HasFamilyLink cannot fail: the source splices the family name into the selector text unescaped, so a family containing `"` or `\` makes the query throw or match another family, which the model does not capture.
- `Math.random` and its 0.3 threshold are replaced by an explicit stream of draws. A draw is a keep flag and a pool index (taken modulo the pool size), so the Zalgo output is a function of the input and the stream.
- The style names, the Russian names and the preview strings are display data. They are kept as fields or left out, and nothing is proved about them.
- Grapheme clusters are not modelled: text is split into code points as `Array.from` does.
- The Latin-mapping styles are modelled with the source's linear formula. So letters such as script "B" map onto unassigned code points in the gaps of the Mathematical Alphanumeric Symbols block, exactly as the source does.
- The active tab is modelled as a string with the values the App uses ('all', 'favorites', 'upload'). The `Tab` type in types.ts:19 lists other values.
- The `type` field of `Font.tags` is named `kind`, because `type` is a Dafny keyword.
- GoogleFontsApi.FontLoader.LoadGoogleFontsBatch: requires `perRequest >= 1`. With 0 the source's loop never advances, and the only caller passes 25.
- FontArchive.ExtensionOf: lower-cases ASCII letters only, where `toLowerCase` lower-cases all of Unicode. No non-ASCII character lower-cases to a letter of ".woff2", ".woff", ".otf" or ".ttf". So the candidates and the pick are the same; only the `ext` of names that are dropped anyway can differ.
- FontArchive.SortBySizeDescending: models the engine's in-place stable sort of the `byExt` array as a stable insertion sort on a sequence. A stable sort's result is determined by its comparator, so the order is the same; the in-place array update is not modelled.
- FontArchive.Entry: the header size is an integer. A non-numeric size in a malformed header, which would give NaN in the comparator, is not modelled.
