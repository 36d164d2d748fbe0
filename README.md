# ImageConverter extension: the decisions under the browser calls

This project is a Dafny model of the small deterministic core of a browser
extension that lets a user right-click an image and save it re-encoded,
optionally shrunk. Almost everything the extension does is a call into the
host browser. The model keeps the decisions those calls are wrapped around:

- **Settings cache** (`SettingsCache`, src/background.ts:18-45). The worker
  keeps two module-level variables, the image format (default `"jpg"`) and the
  compression ratio (default `100`). The startup read overwrites a variable
  only when the stored value is truthy. The change listener applies each
  changed key's new value verbatim, even a falsy one, but only for the
  `"sync"` area. So a stored ratio of `0` is ignored at startup and adopted
  on change. `Cache` is a class whose two methods update the fields in place.
  `AfterStartup` and `AfterChange` specify them. `Replay` folds a sequence of
  storage events, and the lemmas about it show that for each key the last
  event that sets it wins, be it the startup read or a sync change.
- **Menu and click dispatch** (`ContextMenu`, src/background.ts:48-85). The
  three registered entries, and the listener that turns a click record into
  at most one injected-script request. The request carries the cached
  settings as its arguments.
- **Per-request decisions** (`Conversion`, src/background.ts:87-169). These
  are the MIME type, with the source's literal fallback `"iamge/jpg"`; the
  filename `<floor(ms/1000)>.<format>`; and the exact compressed size
  `w*ratio/100`, `h*ratio/100`. They also cover the guards under which a file
  is saved: a bitmap, a 2D context and a non-null blob. The host's answers
  (fetch and decode, context, encoder, clock) are the fields of a `Host`
  value.
- **The legacy script** (`LegacyBackground`, background.js). This is its
  PNG-only menu and its click listener, whose second test (line 30) assigns
  instead of comparing. It also has the fit-into-300×300 size computation,
  as a method over the local variables the script reassigns. That method
  uses `Math.round` on exact rationals and is proved equal to an integer
  definition with `Math.round(a/b) = (2a + b) / (2b)`.

Three behaviours of the code are easy to misread, and the model keeps them
as written:

- The compressed size is not rounded. The code assigns the exact quotient to
  the canvas.
- A non-`"png"` format gets the MIME string `"iamge/jpg"` as written, not a
  JPEG type.
- The legacy listener is modelled with its assignment (`LegacyDispatch`).
  The comparison it evidently meant is modelled next to it, as
  `IntendedLegacyDispatch`.

## Model

| member | source | states |
|---|---|---|
| `Js.Truthy` | src/background.ts:23-26 | the falsy values are exactly `undefined`, the empty string and 0 |
| `Js.And` | background.js:30 | `a && b` yields `a` when `a` is falsy and `b` otherwise; the result is truthy iff both are |
| `Js.OfString` | src/background.ts:72 | an optional string is truthy exactly when present and non-empty |
| `Js.OfNumber` | src/background.ts:26 | an optional number is truthy exactly when present and non-zero |
| `Js.NumberToString` | src/background.ts:109-111 | the decimal text of a whole number is non-empty, all digits, with no leading zero |
| `Js.ParseNumberToString` | src/background.ts:109-111 | reading that decimal text back gives the number it was made from |
| `SettingsCache.Defaults` | src/background.ts:18-19 | the defaults are format `"jpg"` and ratio `100` |
| `SettingsCache.AfterStartup` | src/background.ts:22-28 | each key is replaced only by a truthy stored value; an absent or empty format and an absent or zero ratio leave the current value; the keys are independent |
| `SettingsCache.AfterChange` | src/background.ts:34-45 | outside `"sync"` nothing changes; in `"sync"` each present key takes its new value verbatim and an absent key keeps its value |
| `SettingsCache.LastFormatWriteWins` | src/background.ts:22-44 | after any event sequence, the format is the one written by the last event that sets it (a truthy startup value or a sync change carrying the key) |
| `SettingsCache.LastRatioWriteWins` | src/background.ts:22-44 | the same for the ratio, including a last sync write of 0 |
| `SettingsCache.QuietEventsChangeNothing` | src/background.ts:22-44 | events that set neither key (non-sync areas, falsy startup values, empty change sets) leave the cache as it was |
| `SettingsCache.ZeroRatioAsymmetry` | src/background.ts:26-41 | a ratio of 0 is ignored by the startup read but adopted by a sync change |
| `SettingsCache.SavedPairIsCached` | src/background.ts:34-44 | a sync change carrying both keys leaves the cache equal to the saved pair, whatever it held |
| `SettingsCache.Cache.constructor` | src/background.ts:18-19 | before any storage event the cache holds `"jpg"` and `100` |
| `SettingsCache.Cache.OnStartupRead` | src/background.ts:22-28 | the fields become `AfterStartup` of their old values; a falsy stored value leaves its field unchanged |
| `SettingsCache.Cache.OnStorageChanged` | src/background.ts:34-45 | the fields become `AfterChange` of their old values; a non-sync area or an absent key leaves the field unchanged |
| `ContextMenu.MenuEntries` | src/background.ts:48-66 | three entries with distinct ids, all for images: one parent, and its only children are `"download"` and `"downloadAsCompresse"` |
| `ContextMenu.Dispatch` | src/background.ts:71-85 | `"download"` with a non-empty URL requests `downloadImage(url, format)`; `"downloadAsCompresse"` with one requests `downloadAndCompressImage(url, format, ratio)` with the cached settings; nothing else requests anything |
| `ContextMenu.DispatchFiresExactlyForSubmenuItems` | src/background.ts:48-85 | a click yields a request iff its id is a child entry of the menu and its URL is non-empty, so the parent entry never fires |
| `ContextMenu.ClickSavesInCachedFormat` | src/background.ts:71-158 | a file saved after a click is named with the seconds and exactly the cached format, and is PNG-typed iff that format is `"png"` |
| `Conversion.MimeType` | src/background.ts:100-103 | the MIME type is `"image/png"` iff the format is `"png"`, else the literal `"iamge/jpg"` |
| `Conversion.Filename` | src/background.ts:109-111 | the name is a run of decimal digits, a dot, and then the format string verbatim |
| `Conversion.FilenameRoundTrip` | src/background.ts:109-111 | the filename splits back into `floor(ms/1000)` and the format string verbatim |
| `Conversion.ScaledSize` | src/background.ts:139-140 | ratio 100 keeps the size, ratio 0 gives 0×0, a ratio in [0,100] never enlarges a side, and the aspect ratio is kept |
| `Conversion.DownloadImage` | src/background.ts:87-120 | a fetch failure is an unhandled rejection; a missing context is logged; otherwise the encoder is always asked, for the bitmap's own size and the format's MIME type, and a file is saved under the timestamped name iff the blob is non-null |
| `Conversion.DownloadAndCompressImage` | src/background.ts:122-169 | the same with the scaled size; every failure is handled (a fetch failure and a missing context both reach the `.catch`) |
| `Conversion.DownloadIffContextAndBlob` | src/background.ts:96-118 | on either path a file is saved iff a bitmap was decoded, a 2D context obtained and the encoder returned a blob for the path's request |
| `Conversion.PathsAgreeOnMimeAndName` | src/background.ts:100-158 | whenever both paths reach the encoder they ask for the same MIME type, and whenever both save they use the same name |
| `Conversion.CompressedPathFailsGracefully` | src/background.ts:127-168 | for every host, ratio 0 never causes an unhandled failure; the encoder is asked for a 0×0 canvas, and if it refuses, the request ends without a download |
| `LegacyBackground.LegacyMenuEntries` | background.js:1-21 | three entries with distinct ids, all for images: one parent, and its only children are `"downloadAsPng"` and `"downloadAsCompressedPng"` |
| `LegacyBackground.LegacyDispatch` | background.js:23-37 | `"downloadAsPng"` with a non-empty URL requests the PNG download; any other click with one requests the compressed download; an empty or missing URL requests nothing; whenever the first test fails the record's id is overwritten with the URL |
| `LegacyBackground.OnClicked` | background.js:23-37 | the step-by-step listener, with the line-30 assignment on its local record, yields exactly `LegacyDispatch` |
| `LegacyBackground.IntendedLegacyDispatch` | background.js:23-37 | with both tests comparing ids, each request is tied to its own entry id |
| `LegacyBackground.IntendedFiresExactlyForSubmenuItems` | background.js:1-37 | the intended listener fires iff a child entry was clicked with a non-empty URL, and then agrees with the listener as written |
| `LegacyBackground.ParentClickStartsCompression` | background.js:30-35 | clicking the parent entry on an image starts a compressed download and leaves the URL as the record's id |
| `LegacyBackground.Round` | background.js:79-84 | `Math.round` yields the integer within half a unit of its argument, halves going up |
| `LegacyBackground.RoundOfQuotient` | background.js:79 | `Math.round(a / b)` equals `(2a + b) / (2b)` in integers for non-negative `a` and positive `b` |
| `LegacyBackground.FitWithin300` | background.js:77-87 | the governing side (the width of a wider image, otherwise the height) becomes 300 when over 300; when it is at most 300 the size is kept |
| `LegacyBackground.FitLandscape` | background.js:77-81 | wider than tall and over 300 wide gives `(300, round(height*300/width))` |
| `LegacyBackground.FitPortrait` | background.js:82-86 | not wider than tall and over 300 tall gives `(round(width*300/height), 300)`; squares take this branch |
| `LegacyBackground.FitKeepsSmallImages` | background.js:73-87 | when the governing side is at most 300 both sides pass through unchanged |
| `LegacyBackground.FitBounds` | background.js:77-87 | both fitted sides are at most 300 and at most the original sides |
| `LegacyBackground.FitDimensions` | background.js:71-87 | the reassigned locals end at the fitted size, within 300×300 and within the original; no division by zero occurs |
| `LegacyBackground.DownloadImageAsPngOutcome` | background.js:39-60 | the size is kept, the MIME type is `"image/png"`, the name is `"image.png"`; a fetch failure, a missing context and a null blob are each an unhandled failure of its own kind |
| `LegacyBackground.DownloadAndCompressImageAsPngOutcome` | background.js:62-107 | the fitted size, `"image/png"` and `"compressed_image.png"`; a fetch failure and a missing context reach the `.catch`, a null blob fails unhandled in the encoder callback |
| `LegacyBackground.CompressedDownloadIsSmall` | background.js:71-102 | a saved compressed legacy image is at most 300×300 and no larger than the original |
| `LegacyBackground.LegacyDownloadsArePng` | background.js:51-102 | every legacy download is `"image/png"`, named `"image.png"` or `"compressed_image.png"` by path |

## Left out

- Fetching, image decoding, `getContext`, drawing and `toBlob` are host calls. They are answers in `Host`: a bitmap or none, a context or none, and whether an encode request gets a blob. Pixels are not modelled.
- Anchor creation and click, object URLs, `chrome.scripting.executeScript`, `chrome.contextMenus.create` and `chrome.i18n.getMessage` are foreign calls. Their effect appears only as request values, menu entries with a title key, and the outcome's filename.
- The clock is the `nowMs` parameter. Negative timestamps are not modelled, and neither is the exponent notation a number takes in text from 10^21 up.
- JavaScript floating point is not modelled. The multiplications and divisions in background.js:79, 84 and src/background.ts:139-140 are exact rationals (`real`). The host's truncation of a fractional canvas size (src/background.ts:142-143) is not modelled.
- Promise chaining, callback order and any interleaving of a settings change with a conversion in flight are left out. These are event-loop concurrency.
- `console.log` and `console.error` are left out. A logged failure appears only as `handled` in the outcome.
- The settings UI, src/popup.tsx, is not part of this model. Its load logic repeats the startup read.
- Storage values of other JavaScript types, `NaN`, and a key removed from storage (a change whose new value is `undefined`) are not modelled. The format is always a string and the ratio always an integer.
- The tab a click came from (`tab?.id!` at src/background.ts:74, 80 and `tab.id` at background.js:26, 32) only targets the script injection and is not modelled. A legacy click without a tab fails before any request; the model does not capture that.
- The default parameter values of the two page functions (src/background.ts:87 and src/background.ts:124-125) are not modelled. The dispatcher always passes both arguments.

## Findings

| source | as written | input that shows it | evidently intended | confidence | as-written member | corrected member |
|---|---|---|---|---|---|---|
| background.js:30 | `info.menuItemId = "downloadAsCompressedPng" && info.srcUrl` assigns the URL to the id and tests only the URL | a click on the parent entry `"imageConverter"` on an image with a non-empty URL | `info.menuItemId === "downloadAsCompressedPng" && info.srcUrl` | high; not executed | `LegacyBackground.ParentClickStartsCompression` | `LegacyBackground.IntendedLegacyDispatch` |
