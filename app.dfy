/** The Flask endpoints of the backend (app.py): the upload file-type check, the guard
    in front of the translation services, and the request checks and response shape of
    `/api/upload`. Saving the upload, running OCR and the translation services are not
    modelled: their outcomes are inputs. */
module App {
  import opened Wrappers
  import opened Text
  import Furigana

  // ---------------------------------------------------------------------------
  // File types
  // ---------------------------------------------------------------------------

  const AllowedExtensions: set<string> := {"png", "jpg", "jpeg", "gif", "bmp", "webp"}

  /** `allowed_file`. */
  function AllowedFile(filename: string): (allowed: bool)
    ensures allowed ==> '.' in filename && 3 <= |AfterLast(filename, '.')| <= 4 && |filename| >= 4
  {
    '.' in filename && Lower(AfterLast(filename, '.')) in AllowedExtensions
  }

  /** A file name is allowed exactly when it has a '.' and the text after the last one is,
      in lower case, an image extension. */
  lemma AllowedFileByLastDot(filename: string)
    ensures AllowedFile(filename) <==>
              exists i :: 0 <= i < |filename| && filename[i] == '.' && '.' !in filename[i + 1..]
                          && Lower(filename[i + 1..]) in AllowedExtensions
  {
    if AllowedFile(filename) {
      var ext := AfterLast(filename, '.');
      var i := |filename| - |ext| - 1;
      assert filename[i + 1..] == ext;
    }
    if exists i :: 0 <= i < |filename| && filename[i] == '.' && '.' !in filename[i + 1..]
                   && Lower(filename[i + 1..]) in AllowedExtensions {
      var i :| 0 <= i < |filename| && filename[i] == '.' && '.' !in filename[i + 1..]
               && Lower(filename[i + 1..]) in AllowedExtensions;
      assert filename[i + 1..] == AfterLast(filename, '.');
    }
  }

  /** A name made of a base, a '.' and an extension without '.' is judged by the
      extension alone, in lower case. */
  lemma ExtensionDecides(base: string, ext: string)
    requires '.' !in ext
    ensures AllowedFile(base + "." + ext) <==> Lower(ext) in AllowedExtensions
  {
    var f := base + "." + ext;
    assert f[|base|] == '.';
    assert f[|base| + 1..] == ext;
    AllowedFileByLastDot(f);
  }

  /** An allowed extension is allowed in upper case too. */
  lemma UpperCaseAccepted(base: string, ext: string)
    requires '.' !in ext && ext in AllowedExtensions
    ensures AllowedFile(base + "." + Upper(ext))
  {
    var up := Upper(ext);
    assert Lower(up) == Lower(ext);
    assert Lower(ext) == ext by {
      assert forall c :: c in ext ==> !('A' <= c <= 'Z');
    }
    ExtensionDecides(base, up);
  }

  /** An empty extension is rejected, and so is a name without a '.'. */
  lemma NoExtensionRejected(filename: string)
    requires '.' !in filename || filename[|filename| - 1] == '.'
    ensures !AllowedFile(filename)
  {
    assert Lower([]) == [];
  }

  // ---------------------------------------------------------------------------
  // Translation guard
  // ---------------------------------------------------------------------------

  /** The text `translate_text` sends to the translation services: none for a missing,
      empty or all-whitespace text, else the stripped text. */
  function TranslationQuery(text: Option<string>): (query: Option<string>)
    ensures query.None? <==> text.None? || AllSpace(text.value)
    ensures query.Some? ==> query.value == Strip(text.value) && query.value != []
  {
    if text.None? || text.value == [] || Strip(text.value) == [] then None
    else Some(Strip(text.value))
  }

  /** `translate_text`: the guard, then the services, which are an input here. */
  function TranslateText(text: Option<string>, services: string -> Option<string>): (translated: Option<string>)
    ensures text.None? || AllSpace(text.value) ==> translated.None?
  {
    var query := TranslationQuery(text);
    if query.None? then None else services(query.value)
  }

  // ---------------------------------------------------------------------------
  // Upload
  // ---------------------------------------------------------------------------

  datatype UploadedFile = UploadedFile(filename: string)

  /** The `file` part of the multipart request, if any. */
  datatype UploadRequest = UploadRequest(file: Option<UploadedFile>)

  datatype LineData = LineData(original: string, furigana: string, parts: seq<Furigana.Part>, confidence: real)

  datatype PageData = PageData(pageNumber: nat, lines: seq<LineData>)

  datatype UploadResponse =
    | ErrorResponse(status: nat, error: string)
    | UploadSuccess(originalText: string, furiganaText: string, translatedText: Option<string>, pages: seq<PageData>)

  /** What a furigana line becomes in the response. */
  function LineDataOf(line: Furigana.FuriganaLineInfo): (d: LineData)
    ensures d.original == line.originalText && d.furigana == line.furiganaText
    ensures d.parts == line.furiganaParts && d.confidence == line.confidence
  {
    LineData(line.originalText, line.furiganaText, line.furiganaParts, line.confidence)
  }

  /** `upload_file`: the checks on the request come first, in this order, and reject it
      before anything is processed; then the image is processed (its outcome, or the
      message of the exception it raised, is `processing`), its text translated, and the
      pages reshaped for the frontend. */
  method UploadFile(request: UploadRequest, processing: Result<Furigana.FuriganaResult, string>,
                    services: string -> Option<string>) returns (response: UploadResponse)
    ensures request.file.None? ==> response == ErrorResponse(400, "No file provided")
    ensures request.file.Some? && request.file.value.filename == [] ==>
              response == ErrorResponse(400, "No file selected")
    ensures request.file.Some? && request.file.value.filename != [] && !AllowedFile(request.file.value.filename) ==>
              response == ErrorResponse(400, "Invalid file type. Please upload an image.")
    ensures request.file.Some? && AllowedFile(request.file.value.filename) && processing.Failure? ==>
              response == ErrorResponse(500, "Processing failed: " + processing.error)
    ensures request.file.Some? && AllowedFile(request.file.value.filename) && processing.Success? ==>
              var result := processing.value;
              && response.UploadSuccess?
              && response.originalText == result.originalOcr.fullText
              && response.furiganaText == result.furiganaText
              && response.translatedText == TranslateText(Some(result.originalOcr.fullText), services)
              && |response.pages| == |result.furiganaPages|
              && (forall p :: 0 <= p < |response.pages| ==>
                    && response.pages[p].pageNumber == result.furiganaPages[p].pageNumber
                    && |response.pages[p].lines| == |result.furiganaPages[p].lines|)
              && (forall p, l :: 0 <= p < |response.pages| && 0 <= l < |response.pages[p].lines| ==>
                    response.pages[p].lines[l] == LineDataOf(result.furiganaPages[p].lines[l]))
  {
    if request.file.None? {
      return ErrorResponse(400, "No file provided");
    }
    var file := request.file.value;
    if file.filename == [] {
      return ErrorResponse(400, "No file selected");
    }
    if !AllowedFile(file.filename) {
      return ErrorResponse(400, "Invalid file type. Please upload an image.");
    }
    if processing.Failure? {
      return ErrorResponse(500, "Processing failed: " + processing.error);
    }
    var result := processing.value;
    var originalText := result.originalOcr.fullText;
    var translatedText := TranslateText(Some(originalText), services);
    var pages: seq<PageData> := [];
    for p := 0 to |result.furiganaPages|
      invariant |pages| == p
      invariant forall q :: 0 <= q < p ==>
                  && pages[q].pageNumber == result.furiganaPages[q].pageNumber
                  && |pages[q].lines| == |result.furiganaPages[q].lines|
      invariant forall q, l :: 0 <= q < p && 0 <= l < |pages[q].lines| ==>
                  pages[q].lines[l] == LineDataOf(result.furiganaPages[q].lines[l])
    {
      var page := result.furiganaPages[p];
      var lines: seq<LineData> := [];
      for l := 0 to |page.lines|
        invariant |lines| == l
        invariant forall k :: 0 <= k < l ==> lines[k] == LineDataOf(page.lines[k])
      {
        var line := page.lines[l];
        lines := lines + [LineData(line.originalText, line.furiganaText, line.furiganaParts, line.confidence)];
      }
      var pageData := PageData(page.pageNumber, lines);
      assert (pages + [pageData])[..p] == pages;
      pages := pages + [pageData];
    }
    response := UploadSuccess(originalText, result.furiganaText, translatedText, pages);
  }
}
