/**
 The `/ocr` request handler (main.py, `extract`): download, write the document to
 a temporary file, open it, then render and recognise page after page.

 The network, the PDF library and the recognition engine are oracles passed in
 as functions; the temporary-file area is a `FileSystem` object whose files the
 handler writes and removes, and whose ghost trace records the order in which
 it did so.
 */
module Endpoint {
  import opened OcrResult

  newtype byte = b: int | 0 <= b < 256

  type Bytes = seq<byte>

  /** Outcome of a foreign call: a value, or the message of the exception it raised. */
  datatype Result<+T> = Ok(value: T) | Err(message: string)

  /** The temporary files of one request: the downloaded document under the
      unique name the operating system chose, and the image of a page, named
      after the page's index only. */
  datatype Path = TempPdf(name: string) | PageImage(index: nat)

  datatype FileOp = Wrote(path: Path) | Removed(path: Path)

  /** What the handler answers: `{"pages": [...]}`, or an `HTTPException`. */
  datatype Response = Pages(pages: seq<string>) | ClientError(status: nat, detail: string)

  const BadRequest: nat := 400

  class FileSystem {
    var files: map<Path, Bytes>
    ghost var trace: seq<FileOp>

    constructor (initial: map<Path, Bytes>)
      ensures files == initial && trace == []
    {
      files := initial;
      trace := [];
    }

    /** Create or overwrite a file. */
    method Write(p: Path, data: Bytes)
      modifies this
      ensures files == old(files)[p := data]
      ensures trace == old(trace) + [Wrote(p)]
    {
      files := files[p := data];
      trace := trace + [Wrote(p)];
    }

    /** `os.remove`: the file must exist. */
    method Remove(p: Path)
      requires p in files
      modifies this
      ensures files == old(files) - {p}
      ensures trace == old(trace) + [Removed(p)]
    {
      files := files - {p};
      trace := trace + [Removed(p)];
    }
  }

  /** The image files of the first `n` pages. */
  function ImagePaths(n: nat): set<Path>
  {
    set i: nat | i < n :: PageImage(i)
  }

  /** The file operations of the page loop over the first `n` pages: each page's
      image is written, then removed. */
  function PageOps(n: nat): seq<FileOp>
  {
    if n == 0 then [] else PageOps(n - 1) + [Wrote(PageImage(n - 1)), Removed(PageImage(n - 1))]
  }

  /** One iteration of the page loop: save the page's image under its index,
      recognise it, and remove it again. */
  method RecognisePage(fs: FileSystem, idx: nat, png: Bytes, engine: Bytes -> EngineResult)
    returns (text: string)
    modifies fs
    ensures text == PageText(engine(png))
    ensures fs.files == old(fs.files) - {PageImage(idx)}
    ensures fs.trace == old(fs.trace) + [Wrote(PageImage(idx)), Removed(PageImage(idx))]
  {
    var img := PageImage(idx);
    fs.Write(img, png);
    text := OcrImage(engine(fs.files[img]));
    fs.Remove(img);
  }

  /** The page loop: one text per page, in page order; every page image is
      written and removed again in turn. */
  method RecognisePages<Page>(fs: FileSystem, doc: seq<Page>, render: Page -> Bytes,
                              engine: Bytes -> EngineResult)
    returns (pagesText: seq<string>)
    modifies fs
    ensures |pagesText| == |doc|
    ensures forall i :: 0 <= i < |doc| ==> pagesText[i] == PageText(engine(render(doc[i])))
    ensures fs.files == old(fs.files) - ImagePaths(|doc|)
    ensures fs.trace == old(fs.trace) + PageOps(|doc|)
  {
    pagesText := [];
    for idx := 0 to |doc|
      invariant |pagesText| == idx
      invariant forall i :: 0 <= i < idx ==> pagesText[i] == PageText(engine(render(doc[i])))
      invariant fs.files == old(fs.files) - ImagePaths(idx)
      invariant fs.trace == old(fs.trace) + PageOps(idx)
    {
      var text := RecognisePage(fs, idx, render(doc[idx]), engine);
      pagesText := pagesText + [text];
      assert ImagePaths(idx + 1) == ImagePaths(idx) + {PageImage(idx)};
    }
  }

  /** `extract(url)`.
      `fetch` is `requests.get(url, timeout=15).content`; `pdfName` is the name
      `tempfile.NamedTemporaryFile` chooses; `open` is `fitz.open` applied to the
      bytes of that file, giving the document's pages; `render` is
      `page.get_pixmap(dpi=300)` saved as PNG; `engine` is `ocr.ocr` applied to
      the bytes of the saved image. */
  method Extract<Page>(fs: FileSystem, url: string, fetch: string -> Result<Bytes>, pdfName: string,
                       open: Bytes -> Result<seq<Page>>, render: Page -> Bytes,
                       engine: Bytes -> EngineResult)
    returns (resp: Response)
    requires TempPdf(pdfName) !in fs.files
    modifies fs
    // A download failure is a client error, raised before anything is written.
    ensures fetch(url).Err? ==>
              && resp == ClientError(BadRequest, "download error: " + fetch(url).message)
              && fs.files == old(fs.files)
              && fs.trace == old(fs.trace)
    // A document that does not open is a client error, raised after its
    // temporary file is removed again and before any page is touched.
    ensures fetch(url).Ok? && open(fetch(url).value).Err? ==>
              && resp == ClientError(BadRequest, "invalid PDF: " + open(fetch(url).value).message)
              && fs.files == old(fs.files)
              && fs.trace == old(fs.trace) + [Wrote(TempPdf(pdfName)), Removed(TempPdf(pdfName))]
    // Otherwise: exactly one text per page, in page order.
    ensures fetch(url).Ok? && open(fetch(url).value).Ok? ==>
              var doc := open(fetch(url).value).value;
              && resp.Pages?
              && |resp.pages| == |doc|
              && (forall i :: 0 <= i < |doc| ==> resp.pages[i] == PageText(engine(render(doc[i]))))
              && fs.files == old(fs.files) - ImagePaths(|doc|)
              && fs.trace == old(fs.trace) + [Wrote(TempPdf(pdfName))] + PageOps(|doc|)
                                           + [Removed(TempPdf(pdfName))]
  {
    // 1. download
    var download := fetch(url);
    if download.Err? {
      return ClientError(BadRequest, "download error: " + download.message);
    }
    var pdf := TempPdf(pdfName);
    fs.Write(pdf, download.value);

    // 2. open
    var parsed := open(fs.files[pdf]);
    if parsed.Err? {
      fs.Remove(pdf);
      assert fs.files == old(fs.files);
      return ClientError(BadRequest, "invalid PDF: " + parsed.message);
    }
    var doc := parsed.value;

    // 3. render and recognise every page
    var pagesText := RecognisePages(fs, doc, render, engine);

    fs.Remove(pdf);
    assert pdf !in ImagePaths(|doc|);
    return Pages(pagesText);
  }

  /** An engine answer with one 3-field record whose text comes glyph by glyph. */
  function HelloResult(): EngineResult
  {
    Some([[Three([], Glyphs(["H", "E", "L", "L", "O"]), 0.9)]])
  }

  lemma HelloPage()
    ensures PageText(HelloResult()) == "HELLO"
  {
    GlyphsMatchScalar("HELLO");
    assert Explode("HELLO") == ["H", "E", "L", "L", "O"];
    assert KeptLines(HelloResult().value[0]) == ["HELLO"];
  }

  /** What a caller can conclude from `Extract`'s contract alone: a one-page
      document the engine reads glyph by glyph as "HELLO" gives
      `{"pages": ["HELLO"]}`, and no temporary file is left behind. */
  method ExampleOnePage()
  {
    var hello := HelloResult();
    HelloPage();
    var fs := new FileSystem(map[]);
    var r := Extract(fs, "http://host/one.pdf", _ => Ok([1, 2]), "tmp1",
                     _ => Ok([0]), (_: int) => [7], _ => hello);
    assert r == Pages(["HELLO"]);
    assert fs.files == map[];
  }

  /** An empty document gives `{"pages": []}`. */
  method ExampleEmptyDocument()
  {
    var fs := new FileSystem(map[]);
    var r := Extract(fs, "http://host/empty.pdf", _ => Ok([]), "tmp2",
                     _ => Ok([]), (_: int) => [], _ => None);
    assert r == Pages([]);
  }

  /** An unreachable host gives a client error and writes nothing. */
  method ExampleUnreachable()
  {
    var fs := new FileSystem(map[]);
    var r := Extract(fs, "http://nowhere/x.pdf", _ => Err("timed out"), "tmp3",
                     _ => Ok([0]), (_: int) => [], _ => None);
    assert r == ClientError(400, "download error: timed out");
    assert fs.files == map[] && fs.trace == [];
  }
}
