/** The Azure Read client of the backend (ocr_az.py): building the request URL, the
    dispatch on the polled operation status, and reshaping the `analyzeResult` JSON into
    pages and lines with a confidence per line. The HTTP calls and the sleeping between
    polls are not modelled: the responses are inputs. */
module Ocr {
  import opened Wrappers
  import opened Text

  // ---------------------------------------------------------------------------
  // Client configuration
  // ---------------------------------------------------------------------------

  const ReadPath := "/vision/v3.2/read/analyze"

  datatype AzureOcr = AzureOcr(endpoint: string, key: string, ocrUrl: string)

  /** `s.rstrip(c)`: drops every trailing `c`. */
  function StripTrailing(s: string, c: char): (r: string)
    ensures |r| <= |s| && r == s[..|r|]
    ensures r == [] || r[|r| - 1] != c
    ensures forall i :: |r| <= i < |s| ==> s[i] == c
  {
    if s != [] && s[|s| - 1] == c then StripTrailing(s[..|s| - 1], c) else s
  }

  /** `AzureOCR()`: the endpoint and key come from the environment; a missing or empty
      one raises, otherwise the endpoint loses its trailing slashes and the Read path is
      appended to it. */
  function NewAzureOcr(endpoint: Option<string>, key: Option<string>): (r: Result<AzureOcr, string>)
    ensures r.Failure? <==> endpoint.None? || endpoint.value == [] || key.None? || key.value == []
    ensures r.Success? ==>
              && r.value.key == key.value
              && r.value.endpoint == StripTrailing(endpoint.value, '/')
              && r.value.ocrUrl == r.value.endpoint + ReadPath
  {
    if endpoint.None? || endpoint.value == [] || key.None? || key.value == [] then
      Failure("Azure OCR endpoint and key must be set in .env file")
    else
      var e := StripTrailing(endpoint.value, '/');
      Success(AzureOcr(e, key.value, e + ReadPath))
  }

  /** Any number of trailing slashes on the configured endpoint give the same URL. */
  lemma {:induction false} TrailingSlashesIgnored(endpoint: string, key: string, n: nat)
    requires endpoint != [] && key != []
    ensures var slashes := seq(n, _ => '/');
            NewAzureOcr(Some(endpoint + slashes), Some(key)) == NewAzureOcr(Some(endpoint), Some(key))
  {
    var slashes := seq(n, _ => '/');
    if n > 0 {
      var fewer := seq(n - 1, _ => '/');
      TrailingSlashesIgnored(endpoint, key, n - 1);
      assert (endpoint + slashes)[..|endpoint + slashes| - 1] == endpoint + fewer;
    } else {
      assert endpoint + slashes == endpoint;
    }
  }

  /** The URL is the stripped endpoint followed by the Read path, and the stripped endpoint
      is the configured one up to trailing slashes. */
  lemma OcrUrlShape(endpoint: string, key: string)
    requires endpoint != [] && key != []
    ensures var c := NewAzureOcr(Some(endpoint), Some(key)).value;
            && c.ocrUrl[|c.endpoint|..] == ReadPath
            && endpoint[..|c.endpoint|] == c.endpoint
            && (endpoint[|endpoint| - 1] != '/' ==> c.endpoint == endpoint)
  {
  }

  // ---------------------------------------------------------------------------
  // Polling the operation
  // ---------------------------------------------------------------------------

  /** One GET of the operation location: its HTTP status and the JSON `status` field. */
  datatype PollResponse = PollResponse(statusCode: int, status: Option<string>)

  datatype PollStep = Done | Retry | Fail(message: string)

  /** Python's `str()` of an optional string. */
  function ShowOption(s: Option<string>): string
  {
    if s.Some? then s.value else "None"
  }

  /** What `_poll_for_result` does with one response. */
  function Dispatch(response: PollResponse): (step: PollStep)
    ensures response.statusCode != 200 ==> step.Fail?
    ensures step == Done <==> response.statusCode == 200 && response.status == Some("succeeded")
    ensures step == Retry <==>
              response.statusCode == 200 && response.status.Some?
              && response.status.value in {"notStarted", "running"}
  {
    if response.statusCode != 200 then Fail("Failed to get OCR result: " + IntToString(response.statusCode))
    else if response.status == Some("succeeded") then Done
    else if response.status == Some("failed") then Fail("OCR processing failed on Azure side")
    else if response.status.Some? && response.status.value in {"notStarted", "running"} then Retry
    else Fail("Unknown status: " + ShowOption(response.status))
  }

  /** How polling ended: on the response at `index`, or not yet within the responses given. */
  datatype PollOutcome = Succeeded(index: nat) | Failed(index: nat, message: string) | Pending

  /** `_poll_for_result`: polls the responses in order until one is final. */
  method PollForResult(responses: seq<PollResponse>) returns (outcome: PollOutcome)
    ensures outcome.Succeeded? ==> outcome.index < |responses| && Dispatch(responses[outcome.index]) == Done
    ensures outcome.Failed? ==>
              outcome.index < |responses| && Dispatch(responses[outcome.index]) == Fail(outcome.message)
    ensures outcome.Pending? ==> forall i :: 0 <= i < |responses| ==> Dispatch(responses[i]) == Retry
    ensures !outcome.Pending? ==> forall i :: 0 <= i < outcome.index ==> Dispatch(responses[i]) == Retry
  {
    var i := 0;
    while i < |responses|
      invariant i <= |responses|
      invariant forall j :: 0 <= j < i ==> Dispatch(responses[j]) == Retry
    {
      var step := Dispatch(responses[i]);
      match step {
        case Done => return Succeeded(i);
        case Fail(message) => return Failed(i, message);
        case Retry =>
      }
      i := i + 1;
    }
    return Pending;
  }

  // ---------------------------------------------------------------------------
  // The Read result
  // ---------------------------------------------------------------------------

  /** The parts of the Read API JSON the parser reads; `None` is an absent key. */
  datatype Word = Word(confidence: Option<real>)
  datatype ReadLine = ReadLine(text: Option<string>, boundingBox: Option<seq<real>>, words: Option<seq<Word>>)
  datatype ReadPage = ReadPage(width: Option<real>, height: Option<real>, lines: Option<seq<ReadLine>>)
  datatype AnalyzeResult = AnalyzeResult(readResults: Option<seq<ReadPage>>)
  datatype ReadResponse = ReadResponse(analyzeResult: Option<AnalyzeResult>)

  /** The parsed result. */
  datatype LineInfo = LineInfo(text: string, boundingBox: seq<real>, confidence: real)
  datatype PageInfo = PageInfo(pageNumber: nat, width: real, height: real, lines: seq<LineInfo>)
  datatype OcrResult = OcrResult(fullText: string, lines: seq<string>, pages: seq<PageInfo>,
                                 readingDirection: string)

  function ReadPages(result: ReadResponse): seq<ReadPage>
  {
    if result.analyzeResult.Some? then result.analyzeResult.value.readResults.GetOr([]) else []
  }

  function WordConfidence(w: Word): real
  {
    w.confidence.GetOr(0.0)
  }

  function ConfidenceSum(words: seq<Word>): real
  {
    if words == [] then 0.0 else ConfidenceSum(words[..|words| - 1]) + WordConfidence(words[|words| - 1])
  }

  /** `_calculate_line_confidence`: the mean word confidence, 0.0 without words. */
  function LineConfidence(line: ReadLine): (c: real)
    ensures line.words.None? || line.words.value == [] ==> c == 0.0
    ensures line.words.Some? && line.words.value != [] ==>
              c * |line.words.value| as real == ConfidenceSum(line.words.value)
  {
    var words := line.words.GetOr([]);
    if words == [] then 0.0 else ConfidenceSum(words) / |words| as real
  }

  lemma {:induction false} SumBetween(words: seq<Word>, lo: real, hi: real)
    requires forall i :: 0 <= i < |words| ==> lo <= WordConfidence(words[i]) <= hi
    ensures lo * |words| as real <= ConfidenceSum(words) <= hi * |words| as real
  {
    if words != [] {
      SumBetween(words[..|words| - 1], lo, hi);
    }
  }

  /** The line confidence lies between the smallest and the largest word confidence. */
  lemma LineConfidenceBetween(line: ReadLine)
    requires line.words.Some? && line.words.value != []
    ensures var words := line.words.value;
            && (exists i :: 0 <= i < |words| && WordConfidence(words[i]) <= LineConfidence(line))
            && (exists i :: 0 <= i < |words| && LineConfidence(line) <= WordConfidence(words[i]))
  {
    var words := line.words.value;
    var lo, hi := LowestConfidence(words), HighestConfidence(words);
    MeanWithin(words, WordConfidence(words[lo]), WordConfidence(words[hi]));
    assert 0 <= lo < |words| && WordConfidence(words[lo]) <= LineConfidence(line);
    assert 0 <= hi < |words| && LineConfidence(line) <= WordConfidence(words[hi]);
  }

  /** The mean of confidences lying between two bounds lies between them too. */
  lemma MeanWithin(words: seq<Word>, lo: real, hi: real)
    requires words != []
    requires forall i :: 0 <= i < |words| ==> lo <= WordConfidence(words[i]) <= hi
    ensures lo <= ConfidenceSum(words) / |words| as real <= hi
  {
    SumBetween(words, lo, hi);
    MeanBetween(ConfidenceSum(words), |words| as real, lo, hi);
  }

  lemma MeanBetween(sum: real, n: real, lo: real, hi: real)
    requires n > 0.0 && lo * n <= sum <= hi * n
    ensures lo <= sum / n <= hi
  {
    var m := sum / n;
    assert m * n == sum;
  }

  /** The index of a smallest word confidence. */
  function LowestConfidence(words: seq<Word>): (k: nat)
    requires words != []
    ensures k < |words| && forall i :: 0 <= i < |words| ==> WordConfidence(words[k]) <= WordConfidence(words[i])
  {
    if |words| == 1 then 0
    else
      var k := LowestConfidence(words[1..]);
      if WordConfidence(words[0]) <= WordConfidence(words[1..][k]) then 0 else k + 1
  }

  /** The index of a largest word confidence. */
  function HighestConfidence(words: seq<Word>): (k: nat)
    requires words != []
    ensures k < |words| && forall i :: 0 <= i < |words| ==> WordConfidence(words[i]) <= WordConfidence(words[k])
  {
    if |words| == 1 then 0
    else
      var k := HighestConfidence(words[1..]);
      if WordConfidence(words[0]) >= WordConfidence(words[1..][k]) then 0 else k + 1
  }

  /** The line texts of pages, page after page. */
  function PageTexts(pages: seq<PageInfo>): seq<string>
  {
    if pages == [] then [] else PageTexts(pages[..|pages| - 1]) + LineTexts(pages[|pages| - 1].lines)
  }

  function LineTexts(lines: seq<LineInfo>): (r: seq<string>)
    ensures |r| == |lines| && forall i :: 0 <= i < |lines| ==> r[i] == lines[i].text
  {
    seq(|lines|, i requires 0 <= i < |lines| => lines[i].text)
  }

  /** The parsed form of one input line. */
  function ParsedLine(line: ReadLine): LineInfo
  {
    LineInfo(line.text.GetOr(""), line.boundingBox.GetOr([]), LineConfidence(line))
  }

  /** `_parse_ocr_result`: one page per read result, numbered from 1, one line per input
      line; `lines` lists every line text, page after page, and `full_text` joins them
      with newlines. */
  method ParseOcrResult(result: ReadResponse) returns (parsed: OcrResult)
    ensures var pages := ReadPages(result);
            && |parsed.pages| == |pages|
            && (forall p :: 0 <= p < |pages| ==>
                  && parsed.pages[p].pageNumber == p + 1
                  && parsed.pages[p].width == pages[p].width.GetOr(0.0)
                  && parsed.pages[p].height == pages[p].height.GetOr(0.0)
                  && |parsed.pages[p].lines| == |pages[p].lines.GetOr([])|)
            && (forall p, l :: 0 <= p < |pages| && 0 <= l < |parsed.pages[p].lines| ==>
                  parsed.pages[p].lines[l] == ParsedLine(pages[p].lines.value[l]))
    ensures parsed.lines == PageTexts(parsed.pages)
    ensures parsed.fullText == Join(parsed.lines, "\n")
    ensures parsed.readingDirection == "auto-detected"
  {
    var pages := ReadPages(result);
    var parsedPages: seq<PageInfo> := [];
    var allTextLines: seq<string> := [];
    for p := 0 to |pages|
      invariant |parsedPages| == p
      invariant forall q :: 0 <= q < p ==>
                  && parsedPages[q].pageNumber == q + 1
                  && parsedPages[q].width == pages[q].width.GetOr(0.0)
                  && parsedPages[q].height == pages[q].height.GetOr(0.0)
                  && |parsedPages[q].lines| == |pages[q].lines.GetOr([])|
      invariant forall q, l :: 0 <= q < p && 0 <= l < |parsedPages[q].lines| ==>
                  parsedPages[q].lines[l] == ParsedLine(pages[q].lines.value[l])
      invariant allTextLines == PageTexts(parsedPages)
    {
      var page := pages[p];
      var lines := page.lines.GetOr([]);
      var pageLines: seq<LineInfo> := [];
      var before := allTextLines;
      for l := 0 to |lines|
        invariant |pageLines| == l
        invariant forall k :: 0 <= k < l ==> pageLines[k] == ParsedLine(lines[k])
        invariant allTextLines == before + LineTexts(pageLines)
      {
        var info := ParsedLine(lines[l]);
        assert LineTexts(pageLines + [info]) == LineTexts(pageLines) + [info.text];
        pageLines := pageLines + [info];
        allTextLines := allTextLines + [info.text];
      }
      var pageInfo := PageInfo(p + 1, page.width.GetOr(0.0), page.height.GetOr(0.0), pageLines);
      assert (parsedPages + [pageInfo])[..p] == parsedPages;
      parsedPages := parsedPages + [pageInfo];
    }
    parsed := OcrResult(Join(allTextLines, "\n"), allTextLines, parsedPages, "auto-detected");
  }

  function LineCount(pages: seq<PageInfo>): nat
  {
    if pages == [] then 0 else LineCount(pages[..|pages| - 1]) + |pages[|pages| - 1].lines|
  }

  /** Every line of every page is listed once: there are as many texts as lines. */
  lemma {:induction false} PageTextsCount(pages: seq<PageInfo>)
    ensures |PageTexts(pages)| == LineCount(pages)
  {
    if pages != [] {
      PageTextsCount(pages[..|pages| - 1]);
    }
  }
}
