# web-converter: a Dafny model of the request logic

web-converter is a small FastAPI service. It offers batch image conversion,
single-image resizing, DOCX to PDF conversion, unit conversion and currency
conversion. The real work is done by libraries: Pillow, python-docx,
reportlab, pint and httpx. What remains in the handlers is decision logic.
This project models that logic and proves what it promises:

- **Batch conversion** (`convert_images`). The handler normalises the target
  format. It then checks the format against the allow-list, then the number
  of files, then the sum of the declared sizes, in that order. Afterwards it
  converts the uploads one by one. An upload that fails is skipped. Every
  upload that converts adds an archive entry named `<stem>.<ext>`.
- **Format selection** (`convert_image`). The target name is lower-cased and
  stripped. `jpeg` and `jpg` both become the JPEG codec with extension `jpeg`
  and a quality clamped to [1, 100]. Any other name is passed through:
  upper-cased for the codec, unchanged as the extension.
- **Resize dispatch** (`resize_image`). The format is the lower-cased text
  after the last dot of the file name. It is checked against an allow-list.
  It then decides the codec, the media type and the download name.
- **DOCX to PDF pagination** (`convert_docx_to_pdf`). A cursor walks down the
  page, 14 units per paragraph. The margins are 40 units. A new page starts
  when a visible line would be drawn below the bottom margin.
- **Currency classification** (`convert_currency`). Both codes are
  upper-cased and stripped. The answer of the rates service is then
  classified in a fixed order: transport error, status, body shape, presence
  of the target code.

## How the model is built

Library calls are parameters, so every property holds whatever the library
does:

- Pillow's decode and encode are partial functions (`Bytes -> Option<Img>`,
  `(Img, string, Option<int>) -> Option<Bytes>`).
- Pillow's resize is a partial function as well (`(Img, int, int) ->
  Option<Img>`): it can raise, and nothing catches it.
- python-docx's parser returns the paragraph texts or nothing.
- The HTTP client maps a URL to a transport error (`httpx.RequestError`), to
  another client exception (an invalid URL, say), or to a status and a body.

The two loops of the source are imperative methods:

- `BatchConvert.ConvertImages` appends entries to a local archive sequence.
  It uses `continue` when an upload fails.
- `DocxToPdf.ConvertDocxToPdf` updates `y`, the page number and the list of
  drawn strings.

Each loop invariant ties the local state to a fold over the prefix already
visited (`Collect`, `Layout`). The properties are then proved about those
folds.

The other pieces are pure functions:

- validation (`BatchConvert.Validate`);
- format selection (`ImageTools.Plan`, `ImageTools.ConvertImage`);
- resize dispatch (`Resize.ChooseOutput`, `Resize.ResizeImage`);
- currency classification (`Currency.Classify`, `Currency.ConvertCurrency`).

The Python built-ins the handlers use have their own modules:

- `Text` covers `str.lower`, `str.upper`, `str.strip`, `str.endswith` and
  `str.rsplit(c, 1)[-1]`.
- `Paths` covers `PurePosixPath.name`, `.stem` and `.suffix`, with CPython
  3.12's rules.

Errors are the `Http.Reason` datatype. `Reason.Status` gives each reason the
status code its `HTTPException` carries. An exception no handler catches is
`Unhandled`, which answers 500.

Three outcomes are worth stating on their own:

- The batch download is named `converted_images_<fmt>.zip`.
- A rates body that is not a JSON object raises inside `resp.json()` or
  `data.get`. Nothing catches it, so the answer is 500, not 502. The same
  holds for a client exception other than `httpx.RequestError` and for a
  target rate that is not a number.
- A resize or encoder failure in `resize_image` is not caught either, so it
  is also 500.

## Model

| member | source | states |
|---|---|---|
| `Http.Reason.Status` | app/main.py:76-248 | every refusal answers 400, 413, 500 or 502; 413 exactly for too many files or too large a total, 502 exactly for the rates service's failures |
| `ImageTools.NormalizeFormat` | app/utils/image_tools.py:16 | the normalised target has no upper-case letter and neither starts nor ends with white space |
| `ImageTools.ClampQuality` | app/utils/image_tools.py:24 | the quality is within [1, 100]; it is the input when that is in range, 1 below the range and 100 above it |
| `ImageTools.Plan` | app/utils/image_tools.py:16-28 | the codec is the upper-case form of the extension; a quality is passed exactly when the normalised target is `jpeg` or `jpg`, and then the extension is `jpeg` and the quality is the clamped one; otherwise the extension is the normalised target |
| `ImageTools.ConvertImage` | app/utils/image_tools.py:9-32 | input that does not decode fails; a result means the input decoded and the encoder, given the chosen codec and quality, produced exactly the returned bytes, which come with the chosen extension; a decoded input that fails is an encoder failure |
| `ImageTools.QualityInRange` | app/utils/image_tools.py:24 | any quality handed to the encoder is within [1, 100], and an in-range quality reaches the encoder unchanged |
| `ImageTools.JpegAliasesAnySpelling` | app/utils/image_tools.py:16-25 | `jpeg` and `jpg` in any letter case and with any surrounding white space give codec `JPEG`, extension `jpeg` and the clamped quality |
| `ImageTools.OtherFormatsPassThrough` | app/utils/image_tools.py:26-28 | any other target gives the normalised name as extension, its upper-case form as codec, no quality option, and so the same choice for every quality |
| `ImageTools.ExtensionAddsNoDot` | app/utils/image_tools.py:25-28 | the extension has a dot only where the normalised target name already had it, so it never gets a leading dot |
| `ImageTools.PlanOfNormalized` | app/utils/image_tools.py:16 | normalisation is idempotent, and an already-normalised target gives the same codec, extension and quality as the raw one |
| `ImageTools.NormalizedIsFixed` | app/utils/image_tools.py:16 | a name without upper-case letters and without surrounding white space is its own normal form |
| `ImageTools.LetterWordIsNormal` | app/utils/image_tools.py:16 | a word of lower-case letters is its own normal form |
| `BatchConvert.TotalSize` | app/main.py:79 | the total is at least each upload's declared size, and it is 0 when no upload declares a positive size |
| `BatchConvert.DeclaredSize` | app/main.py:79 | no contract of its own: `f.size or 0`, a missing size counts as 0; its effect on the total is `UndeclaredSizeCountsZero` |
| `BatchConvert.Validate` | app/main.py:72-81 | a request is accepted exactly when the normalised format is allowed, there are at most 50 files and the declared sizes add up to at most 100 MiB; otherwise the first failing check decides the error (400, then 413, then 413); on acceptance the value is the normalised format |
| `BatchConvert.ArchiveName` | app/main.py:96 | the entry name ends in `.` followed by the extension, and has no slash when the extension has none |
| `BatchConvert.EntryFor` | app/main.py:90-97 | an upload whose bytes do not decode, or whose encoding fails, contributes no entry; otherwise its entry is the encoder's output under `<stem>.<ext>` with the extension of the chosen plan |
| `BatchConvert.Collect` | app/main.py:89-97 | no contract of its own: the fold of the loop, visiting the uploads in order and keeping the entry of each that converts; its properties are the rows from `CollectAppend` to `NothingConvertedIsEmpty` |
| `BatchConvert.ConvertImages` | app/main.py:66-109 | a rejected request gives its validation error; an accepted one gives `converted_images_<fmt>.zip`, media type `application/zip`, and exactly the entries collected, in upload order, from the uploads that convert |
| `BatchConvert.TotalSizeOfSizes` | app/main.py:79 | the total depends only on the declared sizes |
| `BatchConvert.ValidationReadsNoContent` | app/main.py:75-81 | two requests whose uploads declare the same sizes are accepted or refused alike, whatever the names and contents |
| `BatchConvert.FileCountBoundary` | app/main.py:77-78 | exactly 50 files pass the count check and 51 are refused with 413 |
| `BatchConvert.TotalSizeBoundary` | app/main.py:79-81 | a total of exactly 104857600 bytes passes and 104857601 is refused with 413 |
| `BatchConvert.UndeclaredSizeCountsZero` | app/main.py:79 | an upload without a declared size adds nothing to the total |
| `BatchConvert.CollectAppend` | app/main.py:89-97 | the archive of two runs of uploads is the first run's entries followed by the second's |
| `BatchConvert.Converted` | app/main.py:89-97 | the positions of the converted uploads are positions of uploads |
| `BatchConvert.ConvertedPositions` | app/main.py:89-97 | the converted positions increase strictly, and every upload not among them fails to convert |
| `BatchConvert.EntriesAreConvertedUploads` | app/main.py:89-97 | entry k of the archive is the entry of the k-th converted upload, and there are as many entries as converted uploads |
| `BatchConvert.EntryCountBound` | app/main.py:89-97 | there are at most as many entries as uploads, and exactly as many when every upload converts |
| `BatchConvert.NothingConvertedIsEmpty` | app/main.py:91-95 | when no upload converts, the archive is empty |
| `BatchConvert.UndecodableUploadsGiveEmptyArchive` | app/main.py:91-95 | when no upload decodes, the fold collects no entry; with the ensures of `ConvertImages`, an accepted request then answers an empty archive rather than an error |
| `BatchConvert.AllowedFormatIsExtension` | app/main.py:47 | each allowed format is its own normal form and its own file extension |
| `BatchConvert.EntryNames` | app/main.py:96-97 | in an accepted request, entry k is named after the stem of the k-th converted upload, a dot and the normalised format, and holds the encoder's output for that upload's decoded image |
| `Paths.Name` | app/main.py:96 | the name has no slash, is never `.`, and is the whole path when the path has no slash and is not `.` |
| `Paths.SuffixStart` | app/main.py:96 | a suffix exists exactly when the name does not end in a dot and has a dot after its first character; it then starts at the last dot, which is neither the first nor the last character |
| `Paths.Stem` | app/main.py:96 | the stem has no slash |
| `Paths.StemSuffixSplit` | app/main.py:96 | stem followed by suffix is the name; the stem is empty only when the name is; the suffix is empty or a dot followed by at least one character that is not a dot |
| `Paths.StemIgnoresDirectory` | app/main.py:96 | a directory in front of a file name does not change its stem |
| `Paths.StemOfDottedName` | app/main.py:96 | a non-empty stem, a dot and a non-empty dot-free extension have that stem, even when the stem itself holds dots |
| `Text.Strip` | app/utils/image_tools.py:16 | the stripped text is no longer than the input and neither starts nor ends with white space |
| `Text.StripIsSlice` | app/main.py:175 | the stripped text is the slice of the input that follows its leading white space |
| `Text.StripPadded` | app/utils/image_tools.py:16 | whatever white space surrounds a word that starts and ends with a visible character, stripping gives back the word |
| `Text.StripIdempotent` | app/main.py:175 | stripping twice is stripping once |
| `Text.LowerStripIdempotent` | app/main.py:72 | lower-casing and stripping is idempotent |
| `Text.UpperStripIdempotent` | app/main.py:229-230 | upper-casing and stripping is idempotent |
| `Text.LowerStripPadded` | app/main.py:72 | a padded word in any letter case lower-cases and strips to the word in lower case |
| `Text.UpperStripPadded` | app/main.py:229-230 | a padded word in any letter case upper-cases and strips to the word in upper case |
| `Text.LastIndexOf` | app/main.py:121 | the position found holds the character and no later position does; none is found only when the character does not occur |
| `Text.AfterLast` | app/main.py:121 | the tail has no separator, is a suffix of the text, and is preceded by the separator unless it is the whole text |
| `Text.Lower` | app/main.py:72 | lower-casing keeps the length and maps each character on its own |
| `Text.Upper` | app/main.py:229-230 | upper-casing keeps the length and maps each character on its own |
| `Text.LowerStrip` | app/main.py:72 | no contract of its own: `s.lower().strip()`; its properties are `LowerStripIdempotent`, `LowerStripPadded` and `ImageTools.NormalizeFormat` |
| `Text.UpperStrip` | app/main.py:229-230 | no contract of its own: `s.upper().strip()`; its properties are `UpperStripIdempotent`, `UpperStripPadded` and `Currency.NormalizeCode` |
| `Text.EndsWith` | app/main.py:160 | no contract of its own: `s.endswith(suffix)`, the last `len(suffix)` characters are the suffix |
| `Resize.RequestedFormat` | app/main.py:121 | no contract of its own: `rsplit(".", 1)[-1].lower()`; `RequestedFormatIsLastExtension` states the tail property |
| `Resize.RequestedFormatIsLastExtension` | app/main.py:121 | the requested format is the lower-cased longest dot-free tail of the file name: all of it when it has no dot, else what follows the last dot |
| `Resize.ChooseOutput` | app/main.py:121-141 | the name is accepted exactly when its format is `jpeg`, `jpg`, `png` or `webp`, else 400; `jpeg` and `jpg` give codec `JPEG` and `image/jpeg`, the others their upper-case codec and `image/<fmt>`; the download is `resized.<fmt>` |
| `Resize.NotJpegCodec` | app/main.py:133 | only the JPEG aliases among the accepted formats upper-case to `JPEG` |
| `Resize.ResizeImage` | app/main.py:115-142 | a refused name gives 400 before the bytes are looked at; bytes that do not decode give 400; after decoding, a failed resize or a failed encoding is a 500, and otherwise the answer is exactly the encoder's output for the image resized to width by height, with the chosen media type and name |
| `Resize.ResizeStatuses` | app/main.py:121-134 | the request succeeds exactly when the name is accepted and decoding, resizing and encoding all succeed; every failure is 400 or 500, and 400 exactly for a refused name or undecodable bytes |
| `Resize.SameCodecAsConvert` | app/main.py:133-137 | for every accepted format, resize picks the codec `convert_image` picks, and its media type names `convert_image`'s extension |
| `Resize.AcceptedFormatIsNormal` | app/main.py:122 | every accepted format is already lower case and unpadded |
| `Resize.RefusalReadsNothing` | app/main.py:121-125 | a refused name is refused whatever the upload holds and whatever the image library does |
| `DocxToPdf.IsDocxName` | app/main.py:160 | a name passes exactly when its last five characters spell `.docx` in some letter case |
| `DocxToPdf.DocxExtensionAnyCase` | app/main.py:160 | a name ending in `.docx` in any letter case passes the extension check |
| `DocxToPdf.ConvertDocxToPdf` | app/main.py:158-183 | a name without the extension gives 400 before the bytes are read; an unreadable document gives 400; otherwise the canvas holds exactly the layout of the paragraphs, computed in document order |
| `DocxToPdf.Start` | app/main.py:171-172 | no contract of its own: page 1, cursor one margin below the top, nothing drawn; `LayoutIsWellLaidOut` proves it well laid out |
| `DocxToPdf.Step` | app/main.py:175-183 | no contract of its own: one turn of the loop; `StepKeepsLayout`, `BlankParagraphOnlyMovesCursor` and `NewPageResetsCursor` state what it does |
| `DocxToPdf.DrawLine` | app/main.py:179-183 | no contract of its own: the turn for a visible paragraph; `DrawLineKeepsLayout` and `DrawLineAddsText` state what it does |
| `DocxToPdf.Layout` | app/main.py:172-183 | the loop draws at most one string per paragraph and starts at most one page per paragraph beyond the first |
| `DocxToPdf.LayoutOneMore` | app/main.py:174-183 | laying out one more paragraph is one more turn of the loop |
| `DocxToPdf.DrawLineKeepsLayout` | app/main.py:179-183 | drawing a line keeps the layout well formed |
| `DocxToPdf.StepKeepsLayout` | app/main.py:174-183 | every turn of the loop keeps the layout well formed |
| `DocxToPdf.LayoutIsWellLaidOut` | app/main.py:172-183 | every string is drawn at x = 40 with 40 <= y <= page height - 40, on a page already started; consecutive strings are on the same page at least one line apart, or on the next page at the top line; the page count never exceeds the number of strings plus one |
| `DocxToPdf.DrawsAreNonBlankParagraphs` | app/main.py:174-183 | the drawn strings are exactly the non-blank paragraphs, stripped, each once, in document order |
| `DocxToPdf.DrawLineAddsText` | app/main.py:182 | drawing a line appends exactly its text to the drawn texts |
| `DocxToPdf.BlankParagraphOnlyMovesCursor` | app/main.py:175-178 | a blank paragraph draws nothing, never starts a page, and lowers the cursor by 14 |
| `DocxToPdf.NewPageResetsCursor` | app/main.py:179-182 | a visible paragraph reached below the bottom margin goes on a new page at page height - 40; otherwise it goes on the current page at the cursor |
| `DocxToPdf.OneParagraphOnePage` | app/main.py:172-183 | a single visible paragraph gives one page holding that one line at the top |
| `Currency.NormalizeCode` | app/main.py:229-230 | a normalised code has no lower-case letter and neither starts nor ends with white space |
| `Currency.RatesUrlInjective` | app/main.py:232 | distinct normalised source codes give distinct request URL strings |
| `Currency.IsRatesTable` | app/main.py:243 | no contract of its own: the body is an object with `result == "success"` and a `rates` table; `Classify` and `ClassifyStatuses` state its role |
| `Currency.Classify` | app/main.py:234-250 | a transport error gives 502; another client exception gives 500; any status other than 200 gives 502; a body that is not a JSON object gives 500; a body without `result == "success"` or without `rates` gives 502; a target missing from the rates gives 400 naming it; a target rate that is not a number gives 500; otherwise the target's rate |
| `Currency.ConvertCurrency` | app/main.py:226-253 | the answer is the classification of the table fetched for the normalised source code, for the normalised target; on success it quotes the amount, both normalised codes and the target's rate |
| `Currency.Quote.Converted` | app/main.py:250 | no contract of its own: `value * rates[to_cur]` over exact reals; float rounding is left out |
| `Currency.ClassifyStatuses` | app/main.py:234-250 | the answer is accepted exactly when it is a 200 rates table holding a number for the target; a 502 arises exactly from the service's own failures, a 400 exactly from a 200 rates table that lacks the target, and it names the target, a 500 exactly from another client exception, a body that is not a JSON object, or a target rate that is not a number |
| `Currency.CodesIgnoreCaseAndPadding` | app/main.py:229-232 | codes in any letter case with any surrounding white space ask for the same table and give the same answer as the bare upper-case codes |
| `Currency.UpperNormalIsFixed` | app/main.py:229-230 | an upper-cased word without surrounding white space is its own normal form |
| `Currency.NormalizeCodeIdempotent` | app/main.py:229-230 | normalising a code twice changes nothing |
| `Currency.OnlyTheSourceTableMatters` | app/main.py:232-248 | only the table of the normalised source code influences the answer |

## Left out

- Pillow's decoding, resizing and encoding. They are parameters of the model, so pixel data, codecs and their options are not modelled.
- The ZIP container and its DEFLATE compression (RFC 1951). The archive is its sequence of entries in writing order. Duplicate entry names are kept, as `zipfile` keeps them.
- The temporary file, the chunked streaming of the response and the background deletion. These are I/O.
- python-docx's parsing and reportlab's canvas. The document is its list of paragraph texts. The canvas is reduced to its page number and the list of strings drawn, with their page and position.
- The float A4 page height. It is an integer parameter of at least 80, twice the margin.
- `convert_units` and pint. Unit conversion is entirely a library call.
- The httpx request. It is a parameter mapping the URL to what came back. Timeouts count as transport errors, as they do in httpx.
- Currency.ConvertCurrency: does not compute the converted amount itself, because float multiplication and the `.4f` text formatting are not modelled. The quote carries the rate, and `Quote.Converted` gives the exact product. A target rate that is not a JSON number is one case (`NotNumber`, a 500): the model does not tell an integer from a float, nor a boolean (which Python multiplies) from a number. Which URLs httpx refuses (a control character in a code, say) is left to the fetch parameter, which answers `ClientError` for them.
- Paths.Stem: its own contract states only that the stem has no slash. What the stem is, is stated by `StemSuffixSplit`, `StemOfDottedName` and `StemIgnoresDirectory`.
- Currency.Classify: a `"result"` value that is not a string is treated as "not success", which Python also does. A `"rates"` value that is not an object is not modelled: Python would then test membership in a list or a string, or raise on `null`.
- Text.Lower: case mapping covers ASCII letters only, so `Text.Lower` and `Text.Upper` leave every other character unchanged. Python's full Unicode case mapping is not modelled.
- Paths.Name: paths follow POSIX rules. The Windows separators a browser might send are not modelled.
- Resize.ResizeImage: requires width and height above 0. The form layer (`Form(..., gt=0)`) enforces this before the handler runs.
- The HTML page routes and the browser scripts under `app/static/js`.
- The expectation in `tests/test_image_convert.py` at line 21 that the batch endpoint answers `image/jpeg`. The handler answers with a ZIP archive, and the model follows the handler.
