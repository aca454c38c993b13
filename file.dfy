/**
 How an uploaded document is read and classified (file.go): the type taken
 from the file name's suffix, the type sniffed from the first bytes (and, for
 a ZIP archive, from the names of its entries), the precedence between the
 two, the file name taken from the request headers, and the dispatch to the
 extractor for each type.  The multipart parsing, the ZIP reader and the PDF,
 ODT and DOCX extractors are not modelled: their outcomes are parameters.
 */
module FileType {
  import opened Wrappers
  import opened Strings
  import opened Extract

  /** The four types the service extracts text from. */
  predicate Supported(t: string) {
    t == "pdf" || t == "odt" || t == "doc" || t == "docx"
  }

  // ---------------------------------------------------------------------------
  // Type from the file name
  // ---------------------------------------------------------------------------

  /** detectFileTypeFromName: the suffix of the lower-cased name, tested in the
      order .pdf, .odt, .doc, .docx. */
  function DetectFileTypeFromName(filename: string): string {
    var name := ToLower(filename);
    if HasSuffix(name, ".pdf") then "pdf"
    else if HasSuffix(name, ".odt") then "odt"
    else if HasSuffix(name, ".doc") then "doc"
    else if HasSuffix(name, ".docx") then "docx"
    else "unknown"
  }

  /** Two suffixes of one string end in the same character. */
  lemma SuffixLast(s: string, p: string)
    requires p != [] && HasSuffix(s, p)
    ensures s[|s| - 1] == p[|p| - 1]
  {
    assert s[|s| - |p|..][|p| - 1] == s[|s| - 1];
  }

  /** Each type is chosen exactly when the lower-cased name has its suffix
      (the four suffixes end in different letters, so the order of the tests
      does not matter), and a name with none of them is "unknown". */
  lemma FileTypeFromNameSpec(filename: string)
    ensures var r := DetectFileTypeFromName(filename);
            var name := ToLower(filename);
            && (Supported(r) || r == "unknown")
            && (r == "pdf" <==> HasSuffix(name, ".pdf"))
            && (r == "odt" <==> HasSuffix(name, ".odt"))
            && (r == "doc" <==> HasSuffix(name, ".doc"))
            && (r == "docx" <==> HasSuffix(name, ".docx"))
  {
    var name := ToLower(filename);
    if HasSuffix(name, ".odt") { SuffixLast(name, ".odt"); }
    if HasSuffix(name, ".doc") { SuffixLast(name, ".doc"); }
    if HasSuffix(name, ".docx") { SuffixLast(name, ".docx"); }
  }

  /** Lower-casing twice is lower-casing once. */
  lemma ToLowerIdempotent(s: string)
    ensures ToLower(ToLower(s)) == ToLower(s)
  {
  }

  /** The name test ignores letter case: an upper-cased "REPORT.PDF" is a "pdf". */
  lemma FileTypeFromNameIgnoresCase(filename: string)
    ensures DetectFileTypeFromName(ToLower(filename)) == DetectFileTypeFromName(filename)
  {
    ToLowerIdempotent(filename);
  }

  // ---------------------------------------------------------------------------
  // Type from the content
  // ---------------------------------------------------------------------------

  /** The OLE compound-file signature of a legacy Word document. */
  const OleMagic: seq<byte> := [0xD0, 0xCF, 0x11, 0xE0]
  /** "%PDF". */
  const PdfMagic: seq<byte> := [0x25, 0x50, 0x44, 0x46]
  /** "PK", the start of every ZIP archive (DOCX and ODT both are). */
  const ZipMagic: seq<byte> := [0x50, 0x4B]

  /** bytes.HasPrefix. */
  predicate StartsWith(data: seq<byte>, prefix: seq<byte>) {
    |prefix| <= |data| && data[..|prefix|] == prefix
  }

  /** An entry name that marks a DOCX package. */
  predicate DocxMarker(name: string) {
    name == "word/document.xml" || name == "[Content_Types].xml"
  }

  /** An entry name that marks an ODT package. */
  predicate OdtMarker(name: string) {
    name == "content.xml" || name == "META-INF/manifest.xml"
  }

  /** No entry before position k is a marker of either kind. */
  predicate NoMarkerBefore(names: seq<string>, k: int)
    requires k <= |names|
  {
    forall j :: 0 <= j < k ==> !DocxMarker(names[j]) && !OdtMarker(names[j])
  }

  /** The scan over the archive's entries, in archive order: the first marker
      decides, and an archive without one is taken for a DOCX. */
  function ZipEntryType(names: seq<string>): string
    decreases |names|
  {
    if names == [] then "docx"
    else if DocxMarker(names[0]) then "docx"
    else if OdtMarker(names[0]) then "odt"
    else ZipEntryType(names[1..])
  }

  /** The archive is an ODT exactly when its first marker is an ODT marker;
      otherwise (a DOCX marker first, or no marker at all) it is a DOCX. */
  lemma {:induction false} ZipEntryTypeSpec(names: seq<string>)
    ensures ZipEntryType(names) == "odt" || ZipEntryType(names) == "docx"
    ensures ZipEntryType(names) == "odt" <==>
              exists k :: 0 <= k < |names| && OdtMarker(names[k]) && NoMarkerBefore(names, k)
    decreases |names|
  {
    if names != [] && !DocxMarker(names[0]) && !OdtMarker(names[0]) {
      var rest := names[1..];
      ZipEntryTypeSpec(rest);
      if ZipEntryType(rest) == "odt" {
        var k :| 0 <= k < |rest| && OdtMarker(rest[k]) && NoMarkerBefore(rest, k);
        assert names[k + 1] == rest[k];
        assert NoMarkerBefore(names, k + 1) by {
          forall j | 0 <= j < k + 1 ensures !DocxMarker(names[j]) && !OdtMarker(names[j]) {
            if j > 0 { assert names[j] == rest[j - 1]; }
          }
        }
      }
      if exists k :: 0 <= k < |names| && OdtMarker(names[k]) && NoMarkerBefore(names, k) {
        var k :| 0 <= k < |names| && OdtMarker(names[k]) && NoMarkerBefore(names, k);
        assert k > 0;
        assert rest[k - 1] == names[k];
        assert NoMarkerBefore(rest, k - 1) by {
          forall j | 0 <= j < k - 1 ensures !DocxMarker(rest[j]) && !OdtMarker(rest[j]) {
            assert rest[j] == names[j + 1];
          }
        }
      }
    } else if names != [] && OdtMarker(names[0]) {
      assert NoMarkerBefore(names, 0);
    } else if names != [] {
      forall k | 0 <= k < |names| && OdtMarker(names[k]) ensures !NoMarkerBefore(names, k) {
        assert k > 0;
      }
    }
  }

  /** detectFileType.  `entries` is what the ZIP reader yields for the data: the
      entry names in archive order, or None when the data is not a readable
      archive. */
  function DetectFileType(data: seq<byte>, entries: Option<seq<string>>): string {
    if |data| < 4 then "unknown"
    else if |data| >= 8 && StartsWith(data, OleMagic) then "doc"
    else if StartsWith(data, PdfMagic) then "pdf"
    else if StartsWith(data, ZipMagic) then
      if entries.None? then "unknown" else ZipEntryType(entries.value)
    else "unknown"
  }

  /** What each signature yields: the OLE signature needs at least 8 bytes,
      "%PDF" at least 4, a readable "PK" archive is a DOCX or an ODT as its
      entries say, and everything else (too short, unreadable archive, no
      known signature) is "unknown". */
  lemma DetectFileTypeSpec(data: seq<byte>, entries: Option<seq<string>>)
    ensures var r := DetectFileType(data, entries);
            && (Supported(r) || r == "unknown")
            && (r == "doc" <==> |data| >= 8 && StartsWith(data, OleMagic))
            && (r == "pdf" <==> |data| >= 4 && StartsWith(data, PdfMagic))
            && ((r == "docx" || r == "odt") <==> |data| >= 4 && StartsWith(data, ZipMagic) && entries.Some?)
            && (r == "odt" ==> entries.Some? && ZipEntryType(entries.value) == "odt")
            && (|data| < 4 ==> r == "unknown")
  {
    if |data| >= 4 && StartsWith(data, ZipMagic) && entries.Some? {
      ZipEntryTypeSpec(entries.value);
      assert data[0] == 0x50;
    }
    if StartsWith(data, PdfMagic) {
      assert data[0] == 0x25;
    }
  }

  /** readMultipartFile's choice of type: the name decides, and the content is
      sniffed only when the name gives "unknown". */
  function MultipartFileType(filename: string, data: seq<byte>, entries: Option<seq<string>>): (r: string)
    ensures Supported(DetectFileTypeFromName(filename)) ==> r == DetectFileTypeFromName(filename)
    ensures !Supported(DetectFileTypeFromName(filename)) ==> r == DetectFileType(data, entries)
    ensures Supported(r) || r == "unknown"
  {
    FileTypeFromNameSpec(filename);
    DetectFileTypeSpec(data, entries);
    var t := DetectFileTypeFromName(filename);
    if t == "unknown" then DetectFileType(data, entries) else t
  }

  /** A part of a multipart form: its file name, the error opening it (if any)
      and the outcome of reading it. */
  datatype FormFile = FormFile(filename: string, openError: Option<string>, content: Result<seq<byte>>)

  /** readMultipartFile: the data and its type, or the open or read error. */
  function ReadMultipartFile(fh: FormFile, zipEntries: seq<byte> -> Option<seq<string>>): (r: Result<(seq<byte>, string)>)
    ensures fh.openError.Some? ==> r == Failure("cannot open uploaded file: " + fh.openError.value)
    ensures fh.openError.None? && fh.content.Failure? ==> r == Failure("cannot read uploaded file: " + fh.content.error)
    ensures r.Success? ==> fh.openError.None? && fh.content == Success(r.value.0)
    ensures r.Success? ==> r.value.1 == MultipartFileType(fh.filename, r.value.0, zipEntries(r.value.0))
  {
    if fh.openError.Some? then Failure("cannot open uploaded file: " + fh.openError.value)
    else if fh.content.Failure? then Failure("cannot read uploaded file: " + fh.content.error)
    else
      var data := fh.content.value;
      Success((data, MultipartFileType(fh.filename, data, zipEntries(data))))
  }

  // ---------------------------------------------------------------------------
  // File name from the headers, and the request as a whole
  // ---------------------------------------------------------------------------

  const DefaultFilename: string := "uploaded_file"
  const FilenameKey: string := "filename="

  /** The file name for a raw body: after "filename=" in Content-Disposition
      with the double quotes at both ends removed, else X-Filename, else
      X-Original-Name, else "uploaded_file".  A header that is absent is "". */
  function FilenameFromHeaders(contentDisposition: string, xFilename: string, xOriginalName: string): string {
    if contentDisposition != "" then
      var idx := Index(contentDisposition, FilenameKey);
      IndexSpec(contentDisposition, FilenameKey);
      if idx != -1 then Trim(contentDisposition[idx + |FilenameKey|..], {'"'}) else DefaultFilename
    else if xFilename != "" then xFilename
    else if xOriginalName != "" then xOriginalName
    else DefaultFilename
  }

  /** A present Content-Disposition header decides on its own: without
      "filename=" the default is used even when the other headers are set.
      Without Content-Disposition the first present of X-Filename and
      X-Original-Name is used, else the default. */
  lemma FilenameFromHeadersSpec(contentDisposition: string, xFilename: string, xOriginalName: string)
    ensures var r := FilenameFromHeaders(contentDisposition, xFilename, xOriginalName);
            && (contentDisposition != "" && !Contains(contentDisposition, FilenameKey) ==> r == DefaultFilename)
            && (contentDisposition == "" && xFilename != "" ==> r == xFilename)
            && (contentDisposition == "" && xFilename == "" && xOriginalName != "" ==> r == xOriginalName)
            && (contentDisposition == "" && xFilename == "" && xOriginalName == "" ==> r == DefaultFilename)
  {
    IndexSpec(contentDisposition, FilenameKey);
  }

  /** With "filename=" in Content-Disposition, the name is the rest of the
      header after its first "filename=", trimmed of double quotes (see
      UnquoteSlice for what that trimming removes). */
  lemma FilenameIsTrim(contentDisposition: string, xFilename: string, xOriginalName: string) returns (i: nat)
    requires contentDisposition != "" && Contains(contentDisposition, FilenameKey)
    ensures i == Index(contentDisposition, FilenameKey) && i + |FilenameKey| <= |contentDisposition|
    ensures FilenameFromHeaders(contentDisposition, xFilename, xOriginalName) == Trim(contentDisposition[i + |FilenameKey|..], {'"'})
  {
    IndexSpec(contentDisposition, FilenameKey);
    i := Index(contentDisposition, FilenameKey);
  }

  /** Trimming double quotes removes only double quotes, at the two ends. */
  lemma UnquoteSlice(rest: string) returns (a: nat)
    ensures var r := Trim(rest, {'"'});
            && a + |r| <= |rest| && r == rest[a..a + |r|]
            && (forall j :: 0 <= j < a ==> rest[j] == '"')
            && (forall j :: a + |r| <= j < |rest| ==> rest[j] == '"')
            && (r == [] || (r[0] != '"' && r[|r| - 1] != '"'))
  {
    a := TrimSlice(rest, {'"'});
    var r := Trim(rest, {'"'});
    forall j | 0 <= j < a ensures rest[j] == '"' {
      assert InCutset({'"'}, rest[j]);
    }
    forall j | a + |r| <= j < |rest| ensures rest[j] == '"' {
      assert InCutset({'"'}, rest[j]);
    }
    if r != [] {
      assert !InCutset({'"'}, r[0]) && !InCutset({'"'}, r[|r| - 1]);
    }
  }

  /** The request as the service sees it: an optional multipart "file" part,
      the raw body and the three headers. */
  datatype Request = Request(formFile: Option<FormFile>, body: seq<byte>,
                             contentDisposition: string, xFilename: string, xOriginalName: string)

  /** An uploaded document: its bytes, its type and its file name. */
  datatype Upload = Upload(data: seq<byte>, fileType: string, filename: string)

  const NoFileError: string := "no file provided (use multipart field 'file' or send raw file body)"

  /** getFileFromRequest.  With a multipart part, the upload is that part
      (its name, its bytes, its type by name first); otherwise a non-empty raw
      body is taken with its type sniffed from the content and its name from
      the headers, and an empty body is the "no file provided" error. */
  function GetFileFromRequest(req: Request, zipEntries: seq<byte> -> Option<seq<string>>): (r: Result<Upload>)
    ensures req.formFile.Some? ==>
              && (r.Success? <==> ReadMultipartFile(req.formFile.value, zipEntries).Success?)
              && (r.Success? ==> r.value.filename == req.formFile.value.filename
                                 && Success(r.value.data) == req.formFile.value.content
                                 && r.value.fileType == MultipartFileType(req.formFile.value.filename, r.value.data, zipEntries(r.value.data)))
    ensures req.formFile.None? && req.body == [] ==> r == Failure(NoFileError)
    ensures req.formFile.None? && req.body != [] ==>
              && r.Success? && r.value.data == req.body
              && r.value.fileType == DetectFileType(req.body, zipEntries(req.body))
              && r.value.filename == FilenameFromHeaders(req.contentDisposition, req.xFilename, req.xOriginalName)
  {
    if req.formFile.Some? then
      var fh := req.formFile.value;
      match ReadMultipartFile(fh, zipEntries)
      case Failure(e) => Failure(e)
      case Success(read) => Success(Upload(read.0, read.1, fh.filename))
    else if |req.body| == 0 then Failure(NoFileError)
    else
      Success(Upload(req.body, DetectFileType(req.body, zipEntries(req.body)),
                     FilenameFromHeaders(req.contentDisposition, req.xFilename, req.xOriginalName)))
  }

  // ---------------------------------------------------------------------------
  // Dispatch to the extractors
  // ---------------------------------------------------------------------------

  /** extractTextPages: the extractor for the type; the PDF, ODT and DOCX
      extractors are given, the DOC extractor is the one of the Extract module.
      Only the four supported types reach an extractor, and any other type is
      refused with an error that names it. */
  function ExtractTextPages(data: seq<byte>, fileType: string,
                            pdf: seq<byte> -> Result<seq<string>>,
                            odt: seq<byte> -> Result<seq<string>>,
                            docx: seq<byte> -> Result<seq<string>>): (r: Result<seq<string>>)
    ensures r.Success? ==> Supported(fileType)
    ensures !Supported(fileType) ==> r == Failure("unsupported file type: " + fileType + " (supported: pdf, odt, doc, docx)")
    ensures fileType == "pdf" ==> r == pdf(data)
    ensures fileType == "odt" ==> r == odt(data)
    ensures fileType == "doc" ==> r == DocText(data)
    ensures fileType == "docx" ==> r == docx(data)
  {
    if fileType == "pdf" then pdf(data)
    else if fileType == "odt" then odt(data)
    else if fileType == "doc" then DocText(data)
    else if fileType == "docx" then docx(data)
    else Failure("unsupported file type: " + fileType + " (supported: pdf, odt, doc, docx)")
  }
}
