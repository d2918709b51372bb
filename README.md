# OCR endpoint: result normalisation and request flow

The service has one endpoint, `POST /ocr?url=…`. It downloads a PDF, writes it to a
temporary file and opens it. It then renders each page to a 300-DPI image and runs
the recognition engine on the image. It answers `{"pages": [...]}`, with one text per
page. This project models the part of `main.py` that is the service's own logic:

- **Normalising the engine's output** (`OcrResult`, `ocr_result.dfy`).
  - `_as_str` flattens a text payload: a list or tuple of glyphs is concatenated, and any other value is its string form.
  - `_ocr_image` decodes the detection records of the first image. The old shape is `[bbox, (text, conf)]` and the new one is `[bbox, text, conf]`. A record of any other length is skipped.
  - The kept lines are joined with `"\n"`. An engine answer that is empty or `None` gives `""`.
  - The engine's answer is an input (`EngineResult`), so the engine is never called. The record loop is the method `OcrImage`, proved against the function `PageText`. The lemmas state what `PageText` promises.
- **The request handler `extract`** (`Endpoint`, `endpoint.dfy`).
  - The download, the PDF library's open, page rendering and the engine are oracles, passed in as functions.
  - The temporary-file area is a `FileSystem` object. It holds a map from paths to contents and a ghost trace of the writes and removals in order.
  - `Extract` is a method with the source's page loop. Its contract gives three things:
    - the two client-error exits, with their messages;
    - the files left afterwards, with the exact order of file operations;
    - one text per page, in page order.

## Model

| member | source | states |
|---|---|---|
| `OcrResult.AsStr` | main.py:17-20 | `_as_str`: a plain value gives its string form unchanged. A list or tuple gives the concatenation of its elements' string forms (`Concat`): as long as all of them together, and starting with the first. |
| `OcrResult.Concat` | main.py:19 | `"".join`: the result is as long as all the parts together and starts with the first part. |
| `OcrResult.TextField` | main.py:33-38 | the `len(item)` tests: a 2-field record gives the text inside its `(text, conf)` pair, and a 3-field record gives its middle field. A record of any other length gives nothing. |
| `OcrResult.Line` | main.py:33-39 | the line a record appends: `_as_str` of its text for the 2-field and 3-field shapes, and none (`continue`) exactly for the other lengths. |
| `OcrResult.KeptLines` | main.py:31-39 | the `lines` list after the loop: one line per 2-field or 3-field record, in record order. It is never longer than the record list. |
| `OcrResult.Join` | main.py:40 | `"\n".join(lines)`: no lines give `""`. Otherwise the length is the total length of the lines plus one separator between each pair of neighbours. |
| `OcrResult.PageText` | main.py:27-40 | `_ocr_image` after the engine call: `""` when the engine answer is `None` or empty, otherwise `Join(KeptLines(result[0]))`. |
| `OcrResult.OcrImage` | main.py:27-40 | the page text is `""` when the engine returns `None` or an empty list. Otherwise it is the newline join of the lines kept from `result[0]`, in record order (`PageText`). |
| `OcrResult.GlyphsMatchScalar` | main.py:17-20 | a payload given character by character flattens to the same string as that text given as one string. A plain string flattens to itself, so `["A","B","C"]` gives `"ABC"`. |
| `OcrResult.ConcatInOrder` | main.py:17-19 | flattening a glyph list keeps every element whole and in its place: the elements before it, then the element, then the elements after it. |
| `OcrResult.ConcatAppend` | main.py:19 | flattening distributes over list concatenation. |
| `OcrResult.TwoAndThreeAgree` | main.py:33-36 | a 2-field record `[bbox, (t, conf)]` and a 3-field record `[bbox, t, conf]` give the same line `_as_str(t)`, whatever their boxes and scores. |
| `OcrResult.ShapeInvariant` | main.py:32-39 | two record lists whose records carry the same text position by position give the same lines. Their shapes, boxes and scores can differ. |
| `OcrResult.SkippedContributesNothing` | main.py:37-38 | removing a record of any length other than 2 or 3 does not change the kept lines. |
| `OcrResult.AllSkippedKeepsNothing` | main.py:32-39 | a list in which every record is skipped keeps no line. |
| `OcrResult.KeptLinesAppend` | main.py:31-39 | the lines of two record lists placed one after the other are the lines of the first followed by the lines of the second. |
| `OcrResult.KeptLineAt` | main.py:32-39 | each kept record's line sits among the kept lines at its rank. Its rank is the number of lines kept before it. |
| `OcrResult.KeptLinesPreserveOrder` | main.py:32-39 | when two kept records appear in a given order, their lines appear in the same order. |
| `OcrResult.JoinEnds` | main.py:40 | the joined text starts with the first line and ends with the last one. There is no leading or trailing separator. |
| `OcrResult.JoinAppend` | main.py:40 | joining two non-empty groups of lines puts exactly one `"\n"` between them, whatever the lines contain. |
| `OcrResult.SplitJoin` | main.py:40 | for one or more lines that hold no newline, splitting the joined text at newlines gives back exactly those lines. So they are separated by one `"\n"` each. |
| `OcrResult.NoDetectionsGiveEmptyText` | main.py:28-29 | a `None` or empty engine answer gives `""`. So does a first image whose records are all skipped. |
| `OcrResult.SingleLineIsPageText` | main.py:31-40 | when exactly one record is kept, the page text is that record's line and nothing more. |
| `OcrResult.OnlyFirstImageRead` | main.py:30-32 | only `result[0]` is read. The lists for any further images do not affect the page text. |
| `Endpoint.FileSystem.Write` | main.py:51-53 | writing a file sets that path's contents and changes no other file. The trace records the write. |
| `Endpoint.FileSystem.Remove` | main.py:69 | removing an existing file deletes that path only. The trace records the removal. |
| `Endpoint.RecognisePage` | main.py:65-69 | one page: its image is saved under the page's index and then removed. The text is `PageText` of the engine's answer for the saved image, and no other file changes. |
| `Endpoint.RecognisePages` | main.py:63-69 | the page loop: exactly one text per page, in page order. Each page's image is written and then removed in turn, and no image of these pages is left behind. |
| `Endpoint.Extract` | main.py:44-73 | on a download failure, the answer is 400 `"download error: …"`, no file is touched and the trace is unchanged. When the document does not open, its temporary file is written and then removed, the file area is as before, and the answer is 400 `"invalid PDF: …"` with no page work. Otherwise the answer has exactly one entry per page, in page order, and each entry is that page's `PageText`. Each page's image is written and then removed, in page order, and the temporary PDF is removed last. |

## Left out

- The HTTP fetch with its 15-second timeout is the oracle `fetch`. It either gives the response body or fails with the exception's message. An HTTP error status does not raise in the source: its body is returned like any other, so here it is an `Ok` body.
- PDF parsing and rendering are oracles: `open` gives the document's pages or an error message, and `render` gives a page's PNG bytes. The 300-DPI resolution lives inside `render`. `doc.close()` releases a library handle and has no modelled effect.
- The recognition engine, its configuration (language, GPU, `drop_score`, angle classification) and its process-wide instance are the oracle `engine`, applied to the saved image's bytes.
- The score and the box of a record are read and discarded. They are kept as uninterpreted `real` values and boxes.
- `str()` of a non-string value is not modelled. A payload carries the string forms of its value or of its elements.
- Crash cases the source does not handle are not given invented meaning:
  - `result[0]` being `None`: the type `EngineResult` cannot express it.
  - An entry of `result[0]` that has no `len()` (such as `None`), which raises at the length test: `RawRecord` cannot express it.
  - A 2-field record whose second field is not a pair: the subset type `Record` excludes it.
  - An exception during the page loop. It leaves the temporary PDF behind, and also the current page's image if that was already saved.
- Temporary-file naming is abstracted to `TempPdf(name)` and `PageImage(index)`. `Extract` requires the name the operating system chooses for the PDF to be unused, as `NamedTemporaryFile` guarantees. The name clash of page images between concurrent requests is a concurrency issue and outside this sequential model.
- FastAPI routing and `HTTPException` are represented by the `Response` datatype.
