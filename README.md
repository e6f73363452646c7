# NepalCompass core, modelled in Dafny

NepalCompass is a SwiftUI travel guide for Nepal. Nearly all of it is
presentation, apart from three small pieces of logic inside its views. This
project models those three pieces and proves their properties.

- **Content lookup** (`ContentView.swift`). A content screen picks a bucket
  of typed items from the bundled document: the selected city's bucket of the
  menu item, or else its `"General"` bucket. It changes nothing when the
  document is missing, cannot be read or decoded, or has neither bucket.
  Item tags must be one of seven names. A list item's text is split on
  commas, and each entry is trimmed.
- **Table bodies and cell selection** (`TableView.swift`). The first
  non-empty line gives the headers and every further line gives a row.
  Cells are split on `|` and trimmed. Tapping a cell opens an overlay
  showing that cell, and dismissing the overlay keeps the selection.
- **Colours as hex strings, and the settings screen** (`SettingsView.swift`).
  `Color(hex:)` decodes six or eight hex digits into 8-bit channels.
  `toHex()` formats channels as `#RRGGBB`. The settings screen keeps stored
  hex strings, pending hex strings and preview colours, and its three actions
  copy between them.

The model is split into modules:

- `Wrappers`: `Option`.
- `Strings`: Swift's `split(separator:)`, `trimmingCharacters(in:
  .whitespaces)` and `replacingOccurrences(of:with:)`, stated on `seq<char>`.
- `Theme`: `getColorScheme()`. `ContentView` and `SettingsView` have the
  same copy of it, so it is defined once here.
- `Content`, `Table`, `HexColor`, `Settings`: the three pieces above.

Where the source updates view state, the model is a class with the same
fields and with `modifies` clauses:

- `Content.DynamicContentView` holds `contentData`.
- `Table.TableView` holds `selectedRow`, `selectedCell` and `showDetailView`.
- `Settings.SettingsScreen` holds the theme, the saved, pending and colour
  fields, and the palette index.

Every other part of the model is a set of functions and lemmas.

Details of the code that the model keeps:

- Lists split with Swift's `split(separator: ",")`, which drops empty
  segments, so `"a,,b"` lists two entries.
- The colour defaults differ between call sites. For example, `AccentColor`
  defaults to `"#FF0000"` in `ContentView.swift:9` and to `"#FFC0CB"` in
  `SettingsView.swift:10`. `Settings.DefaultHexes` holds the
  `SettingsView.swift` values.
- Trimming removes all of Foundation's `.whitespaces`: every Unicode space
  separator (category Zs) and the tab.

## Model

| member | source | states |
|---|---|---|
| Theme.ColorSchemeFor | NepalCompass/ContentView.swift:47-53 | "Light" gives light and "Dark" gives dark, and in each case only that string does |
| Theme.OtherPreferencesFollowSystem | NepalCompass/ContentView.swift:51 | every other string, "System" and "" among them, gives no scheme, so the system setting is followed |
| Theme.ChoicesSelect | NepalCompass/SettingsView.swift:129 | the selector's three choices System, Light, Dark give none, light and dark |
| Content.RawValue | NepalCompass/ContentView.swift:293 | every tag is a non-empty lower-case word; `ParseContentType` states that the seven tags are distinct and decode back |
| Content.ParseContentType | NepalCompass/ContentView.swift:292-293 | a tag decodes to kind t exactly when it is t's raw value, so only the seven names decode |
| Content.DecodeItems | NepalCompass/ContentView.swift:313-318 | an item array decodes exactly when every tag is valid, and the result re-encodes to the raw array, keeping order and content |
| Content.DecodeEncodeItems | NepalCompass/ContentView.swift:313-318 | decoding encoded items gives back the same items |
| Content.DecodeDocument | NepalCompass/ContentView.swift:270 | the document decodes exactly when every bucket is well tagged, and it then re-encodes to the raw document with the same keys and items |
| Content.BadTagLeavesContent | NepalCompass/ContentView.swift:285-287 | one bad tag anywhere makes the whole decode fail, and the load then shows nothing new |
| Content.Resolve | NepalCompass/ContentView.swift:273-284 | a result is always one of the menu item's own buckets |
| Content.ResolveCity | NepalCompass/ContentView.swift:274-275 | if the menu item has the city, the result is exactly that city's sequence |
| Content.ResolveGeneralFallback | NepalCompass/ContentView.swift:276-278 | if the city is absent and "General" is present, the result is the General sequence, the same as selecting "General" |
| Content.ResolveCityWins | NepalCompass/ContentView.swift:274-278 | a corollary of `ResolveCity`: when both buckets exist and differ, the General one is not chosen |
| Content.ResolveMisses | NepalCompass/ContentView.swift:279-284 | a missing menu item, or one with neither bucket, gives nothing whatever the city |
| Content.ResolveIsFallbackChain | NepalCompass/ContentView.swift:273-281 | the lookup is the first present key of the chain [city, "General"] |
| Content.Load | NepalCompass/ContentView.swift:262-288 | a file that is missing, cannot be read or has a bad tag gives nothing; a well-tagged file gives exactly the lookup's pick, which is the decoded form of one bucket of that menu item in the file |
| Content.LoadShowsResolved | NepalCompass/ContentView.swift:262-288 | something is shown exactly when the file is well tagged and the lookup finds a bucket, and then it is that bucket |
| Content.LoadCityBucket | NepalCompass/ContentView.swift:273-275 | a well-tagged file whose menu item has the city shows that city's bucket, decoded |
| Content.LoadGeneralBucket | NepalCompass/ContentView.swift:276-278 | a well-tagged file whose menu item lacks the city but has "General" shows the General bucket, decoded |
| Content.DynamicContentView.constructor | NepalCompass/ContentView.swift:214 | the screen starts with no content |
| Content.DynamicContentView.LoadData | NepalCompass/ContentView.swift:262-288 | `contentData` becomes the loaded bucket; on a missing file, a decode failure or a miss it keeps its old value |
| Content.ListItems | NepalCompass/ContentView.swift:345 | no entry contains a comma, and every entry is trimmed at both ends |
| Content.ListIgnoresExtraCommas | NepalCompass/ContentView.swift:345 | commas at either end, or doubled, add no entry |
| Content.ListOfJoinedEntries | NepalCompass/ContentView.swift:345 | entries written between commas come back trimmed, one each, in source order |
| Content.ListExample | NepalCompass/ContentView.swift:345 | "a, b ,c" lists a, b, c for any entries with no comma and no whitespace at either end |
| Table.Lines | NepalCompass/TableView.swift:8 | every line is non-empty and has no newline |
| Table.Cells | NepalCompass/TableView.swift:9 | no cell contains '\|', and none contains a newline when the line has none; cells are trimmed by `Strings.SplitTrimmed` |
| Table.Headers | NepalCompass/TableView.swift:7-10 | no header contains '\|' or a newline, and every header is trimmed at both ends; `ParseRender`, `EmptyTable` and `BlankLinesIgnored` prove what the headers are |
| Table.Data | NepalCompass/TableView.swift:12-17 | there are max(0, lines − 1) rows, and row i holds the cells of line i + 1 |
| Table.EmptyTable | NepalCompass/TableView.swift:7-10 | a body made only of newlines, the empty body among them, has no headers and no rows |
| Table.BlankLinesIgnored | NepalCompass/TableView.swift:8 | newlines at either end, or doubled, change neither the headers nor the rows |
| Table.ExtraPipesIgnored | NepalCompass/TableView.swift:15 | a '\|' at either end of a line, or a doubled one, produces no cell |
| Table.CellsOfJoined | NepalCompass/TableView.swift:15 | the cells of a line are its pieces, trimmed, one each, in order; a piece made only of whitespace gives an empty cell |
| Table.ParseRender | NepalCompass/TableView.swift:7-17 | a body written from raw rows reads back with the first row trimmed as headers and every other row trimmed, each keeping its own width |
| Table.TwoColumnTable | NepalCompass/TableView.swift:7-17 | a four-line two-column body, with optional trailing spaces, parses to its two headers and three two-cell rows |
| Table.PreviewTable | NepalCompass/TableView.swift:116-121 | the preview body gives headers ["Visa Type test for long text", "Fee"] and rows ["15 Days", "$30 USD"], ["30 Days", "$50 USD"], ["90 Days", "$125 USD"] |
| Table.TableView.constructor | NepalCompass/TableView.swift:19-21 | nothing is selected and no overlay is shown |
| Table.TableView.TapCell | NepalCompass/TableView.swift:60-64 | tapping (r, c) selects r and c and shows the overlay, and the selection stays within `data` |
| Table.TableView.Dismiss | NepalCompass/TableView.swift:78-80 | the overlay is hidden and the selection is kept; the close button at lines 94-96 does the same |
| Table.TableView.DetailText | NepalCompass/TableView.swift:75-85 | the overlay text exists exactly while the overlay is up with a selection, and it is the selected cell of the selected row |
| Strings.Split | NepalCompass/TableView.swift:8 | pieces are non-empty and contain no separator |
| Strings.SplitKeepsContent | NepalCompass/TableView.swift:8 | splitting loses nothing but separators: the pieces concatenated are the input with the separators removed |
| Strings.SplitJoin | NepalCompass/TableView.swift:8 | splitting undoes joining on non-empty, separator-free pieces |
| Strings.SplitAround | NepalCompass/TableView.swift:8 | what lies on either side of a separator is split independently |
| Strings.SplitTrimmed | NepalCompass/TableView.swift:9 | no piece contains the separator, and every piece is trimmed at both ends; `Table.Cells` and `Content.ListItems` are its instances for '\|' and ',' |
| Strings.SplitTrimmedKeepsOut | NepalCompass/TableView.swift:9 | splitting and trimming brings in no character the input lacks |
| Strings.Trim | NepalCompass/TableView.swift:9 | the result starts and ends with a character outside `.whitespaces`, or is empty |
| Strings.TrimAll | NepalCompass/TableView.swift:9 | each piece is trimmed, in order, one result per piece |
| Strings.TrimSlice | NepalCompass/TableView.swift:9 | trimming keeps a slice of the input and cuts only whitespace from each side |
| Strings.TrimPadded | NepalCompass/TableView.swift:9 | whitespace around a middle that does not start or end with whitespace is cut, and nothing else is |
| Strings.TrimIdempotent | NepalCompass/TableView.swift:9 | trimming twice is trimming once |
| Strings.Without | NepalCompass/SettingsView.swift:306 | the result has no occurrence of the removed character and is never longer |
| HexColor.StripHash | NepalCompass/SettingsView.swift:306 | no '#' is left |
| HexColor.ScanHex | NepalCompass/SettingsView.swift:307-308 | the scanned value fits in a `UInt64` |
| HexColor.ScanAllHex | NepalCompass/SettingsView.swift:308 | a string of at most 16 hex digits scans to the number it denotes |
| HexColor.ScanStopsAtNonHex | NepalCompass/SettingsView.swift:308 | scanning stops at the first non-hex character |
| HexColor.FromHex | NepalCompass/SettingsView.swift:305-317 | every channel is in 0..255; alpha is 255 unless 8 digits remain; any count other than 6 or 8 gives opaque black |
| HexColor.FromHexRgb | NepalCompass/SettingsView.swift:311-312 | six hex digits decode to alpha 255 and red, green, blue from the first, second and third digit pairs |
| HexColor.FromHexArgb | NepalCompass/SettingsView.swift:313-314 | eight hex digits decode as alpha, red, green, blue, one digit pair each |
| HexColor.FromHexIgnoresHashes | NepalCompass/SettingsView.swift:306 | a string decodes like itself with every '#' removed |
| HexColor.FromHexHashOptional | NepalCompass/SettingsView.swift:306 | "#RRGGBB" and "RRGGBB" decode to the same colour |
| HexColor.HexString | NepalCompass/SettingsView.swift:294 | `%lX` writes upper-case digits with no leading zero that denote the number |
| HexColor.Format02 | NepalCompass/SettingsView.swift:294 | `%02lX` writes upper-case digits denoting the number, exactly two of them for a byte |
| HexColor.FormatRgb | NepalCompass/SettingsView.swift:293-298 | three bytes format as '#' followed by six upper-case hex digits |
| HexColor.ToHex | NepalCompass/SettingsView.swift:284-300 | a string is always produced; for 8-bit channels it has 7 characters and decodes to the same colour made opaque |
| HexColor.DecodeFormatted | NepalCompass/SettingsView.swift:293-312 | decoding the formatted r, g, b gives (255, r, g, b) |
| HexColor.FormatDecoded | NepalCompass/SettingsView.swift:293-312 | six upper-case digits decode to channels that format back to '#' followed by the same digits |
| HexColor.DefaultsDecode | NepalCompass/SettingsView.swift:8-11 | the four stored defaults decode to (0,0,255), (255,0,0), (255,192,203) and (128,0,128), all opaque |
| Settings.Decode | NepalCompass/SettingsView.swift:107-110 | every decoded colour has 8-bit channels; the defaults decode to blue, red, pink and purple |
| Settings.HexOf | NepalCompass/SettingsView.swift:208-211 | the stored hex string decodes to an opaque colour with the same red, green and blue |
| Settings.PaletteHexes | NepalCompass/SettingsView.swift:208-211 | the four hex strings of a palette describe its four colours, role by role |
| Settings.PaletteFallbacksUnused | NepalCompass/SettingsView.swift:208-211 | the `??` fallbacks are never taken, because `toHex()` always produces a string |
| Settings.SettingsScreen.constructor | NepalCompass/SettingsView.swift:5-23 | stored values where there are any, the defaults otherwise; pending values are the defaults; no palette is selected |
| Settings.SettingsScreen.ColorScheme | NepalCompass/SettingsView.swift:90-99 | light exactly for "Light", dark exactly for "Dark", the system's otherwise |
| Settings.SettingsScreen.SelectTheme | NepalCompass/SettingsView.swift:130-132 | the theme becomes the tapped one, and nothing else changes |
| Settings.SettingsScreen.UpdateColorsFromStorage | NepalCompass/SettingsView.swift:101-111 | pending values become the saved ones and the colours their decodings; the screen is consistent afterwards |
| Settings.SettingsScreen.ApplyChanges | NepalCompass/SettingsView.swift:114-121 | saved values become the pending ones; pending values, colours, theme and palette are unchanged |
| Settings.SettingsScreen.ApplyPalette | NepalCompass/SettingsView.swift:201-214 | the roles get set[0..3] in order and the pending values their hex forms; exactly palette `index` is highlighted, where `Highlighted` is the border test at line 190; saved values and theme are unchanged |

`Settings.SettingsScreen.Valid` is the screen invariant. It says that every
colour has 8-bit channels and that the pending hex strings decode to the
colours on screen, up to alpha. `UpdateColorsFromStorage` and
`ApplyPalette` establish it, and `SelectTheme` and `ApplyChanges` preserve
it. `SelectTheme` and `ApplyChanges` require it, and the constructor does
not establish it, since the system colours it starts with need not equal
their default hex strings. Every call site still meets the requirement:
`.onAppear` runs `updateColorsFromStorage` (`SettingsView.swift:82-85`)
before any button of the screen can be tapped. `Table.TableView.Valid` says that row and cell are selected together
and always within `data`. It is why the overlay's read
`data[selectedRow][selectedCell]` (`TableView.swift:85`) is in bounds.

## Left out

- File and JSON I/O (`ContentView.swift:263-270`). The document is given in
  one of three forms: missing, unreadable, or an already parsed nested map
  whose item tags are still unchecked. The diagnostics printed on each
  failure are left out.
- `ContentItem` identifiers (`ContentView.swift:307, 317`). They are fresh
  UUIDs on every decode.
- Floating point. `Color` is held as its four 8-bit channels. The division
  by 255 in `Color(hex:)` (`SettingsView.swift:319-325`) is left out. So is
  the `UIColor.getRed` / `lroundf` step in `toHex()`
  (`SettingsView.swift:285-297`). The model starts from the rounded
  channels.
- HexColor.ToHex: negative components cannot be represented, since channels
  are `nat`; `%lX` on a negative `long` is left out. Channels above 255 are
  formatted with more than two digits, as `%02lX` does, but the round trip
  through `Color(hex:)` is stated for 8-bit channels only.
- The palette constant `colorPalette` (`SettingsView.swift:26-31`), whose
  entries are platform colours at opacity 0.4, and the opaque system colours
  `Color.blue`, `.red`, `.pink` and `.purple` that the colour fields start
  with (`SettingsView.swift:20-23`). They enter the model only as
  parameters: the `colorSet` of `ApplyPalette` and the `initial` colours of
  the constructor.
- Settings.SettingsScreen.ApplyPalette: it asks for 8-bit channels in the
  palette colours, which it needs for `Valid` afterwards.
- The `print` calls in `applyChanges` (`SettingsView.swift:119-120`).
- `@AppStorage` persistence. Stored values are plain fields, and the values
  found at start-up are constructor parameters.
- `selectedPaletteIndex` belongs to `ColorPaletteView`, which is bound to
  `SettingsView`'s fields. It is held here as a field of the same screen
  object.
- Grapheme clusters. A Swift `String` counts and splits `Character`s, and
  `"\r\n"` is a single `Character`. The model counts and splits code
  points. It also compares strings code point by code point, while Swift's
  `String ==` uses canonical equivalence. That equality drives the
  dictionary lookups at `ContentView.swift:273-276`, the theme `switch` and
  the raw-value decode of `ContentType`.
- `Scanner` locale and `charactersToBeSkipped` settings. The model uses the
  default skip set: whitespace and line breaks.
- All SwiftUI layout, blur, gradients and animation. Also left out are
  `CurrencyConverterView.swift` (Double parsing and arithmetic), `MenuView.swift`
  (a static menu table and timer-driven selection), and `NoteView.swift`,
  `RecommendationView.swift` and `TextView.swift` (text rendering only).
