/** The furigana generator of the backend (furigana_az.py): script classification of a
    token, readings from the tokenizer output, the annotated `漢字(かんじ)` text, the
    reshaping of an OCR result into furigana pages and lines, and the ruby HTML.
    pykakasi and MeCab are not modelled: what they return for a text is an input. */
module Furigana {
  import opened Wrappers
  import opened Text
  import KanjiUtils
  import Ocr

  // ---------------------------------------------------------------------------
  // Script classification
  // ---------------------------------------------------------------------------

  datatype TextType = Kanji | Hiragana | Katakana | Other | Unknown | Mixed

  predicate IsHiragana(c: char) { '\U{3040}' <= c <= '\U{309f}' }

  predicate IsKatakana(c: char) { '\U{30a0}' <= c <= '\U{30ff}' }

  /** `len(pattern.findall(s))` for a pattern `[range]+`: the number of maximal runs of
      characters in the range, each counted at its last character. */
  function RunCount(s: string, inRange: char -> bool): nat
  {
    if s == [] then 0
    else (if inRange(s[0]) && (|s| == 1 || !inRange(s[1])) then 1 else 0) + RunCount(s[1..], inRange)
  }

  /** A string has a run exactly when it has a character in the range. */
  lemma {:induction false} RunCountPositive(s: string, inRange: char -> bool)
    ensures RunCount(s, inRange) > 0 <==> exists i :: 0 <= i < |s| && inRange(s[i])
  {
    if s != [] {
      RunCountPositive(s[1..], inRange);
      if exists i :: 0 <= i < |s| && inRange(s[i]) {
        var i :| 0 <= i < |s| && inRange(s[i]);
        if i > 0 {
          assert inRange(s[1..][i - 1]);
        } else if |s| > 1 && inRange(s[1]) {
          assert inRange(s[1..][0]);
        }
      }
      if exists i :: 0 <= i < |s[1..]| && inRange(s[1..][i]) {
        var i :| 0 <= i < |s[1..]| && inRange(s[1..][i]);
        assert inRange(s[i + 1]);
      }
    }
  }

  /** `_classify_text_type`. */
  function Classify(text: string): (t: TextType)
    ensures text == [] <==> t == Unknown
  {
    if text == [] then Unknown
    else
      var kanjiCount := RunCount(text, KanjiUtils.IsKanji);
      var hiraganaCount := RunCount(text, IsHiragana);
      var katakanaCount := RunCount(text, IsKatakana);
      var totalJapanese := kanjiCount + hiraganaCount + katakanaCount;
      if kanjiCount > 0 then Kanji
      else if hiraganaCount > 0 then Hiragana
      else if katakanaCount > 0 then Katakana
      else if totalJapanese == 0 then Other
      else Mixed
  }

  predicate HasKanji(s: string) { exists i :: 0 <= i < |s| && KanjiUtils.IsKanji(s[i]) }
  predicate HasHiragana(s: string) { exists i :: 0 <= i < |s| && IsHiragana(s[i]) }
  predicate HasKatakana(s: string) { exists i :: 0 <= i < |s| && IsKatakana(s[i]) }

  /** The first script present decides, in the order kanji, hiragana, katakana; text
      with none of them is 'other', and 'mixed' is never the answer. */
  lemma ClassifyByScript(text: string)
    requires text != []
    ensures Classify(text) == Kanji <==> HasKanji(text)
    ensures Classify(text) == Hiragana <==> !HasKanji(text) && HasHiragana(text)
    ensures Classify(text) == Katakana <==> !HasKanji(text) && !HasHiragana(text) && HasKatakana(text)
    ensures Classify(text) == Other <==> !HasKanji(text) && !HasHiragana(text) && !HasKatakana(text)
    ensures Classify(text) != Mixed
  {
    RunCountPositive(text, KanjiUtils.IsKanji);
    RunCountPositive(text, IsHiragana);
    RunCountPositive(text, IsKatakana);
  }

  // ---------------------------------------------------------------------------
  // Tokens and readings
  // ---------------------------------------------------------------------------

  /** One item of `kakasi.convert(text)`; `None` is an absent key. */
  datatype KakasiItem = KakasiItem(orig: Option<string>, hira: Option<string>)

  /** What the generator has to work with: whether each library imported, what
      `kakasi.convert` returns for a text (`None` when it raises), and the words of
      `mecab.parse(text).strip().split()`. */
  datatype Analyzers = Analyzers(
    hasKakasi: bool,
    hasMecab: bool,
    convert: string -> Option<seq<KakasiItem>>,
    mecabWords: string -> seq<string>)

  datatype Part = Part(text: string, reading: string, kind: TextType)

  /** The part `_kakasi_tokenize` makes of one item. */
  function ItemPart(item: KakasiItem): (p: Part)
    ensures p.text == item.orig.GetOr("") && p.kind == Classify(p.text)
    ensures p.reading == (if item.hira.GetOr("") != p.text then item.hira.GetOr("") else "")
  {
    var orig := item.orig.GetOr("");
    var hira := item.hira.GetOr("");
    Part(orig, if hira != orig then hira else "", Classify(orig))
  }

  /** The parts of `_kakasi_tokenize(text)`: one per item, or the whole text as one
      'unknown' part when the conversion raises. */
  function KakasiParts(text: string, conversion: Option<seq<KakasiItem>>): (parts: seq<Part>)
    ensures conversion.None? ==> parts == [Part(text, "", Unknown)]
    ensures conversion.Some? ==> |parts| == |conversion.value|
    ensures conversion.Some? ==> forall i :: 0 <= i < |parts| ==> parts[i] == ItemPart(conversion.value[i])
  {
    if conversion.None? then [Part(text, "", Unknown)]
    else seq(|conversion.value|, i requires 0 <= i < |conversion.value| => ItemPart(conversion.value[i]))
  }

  /** `_kakasi_tokenize`: the loop over the conversion items. */
  method KakasiTokenize(text: string, analyzers: Analyzers) returns (parts: seq<Part>)
    ensures parts == KakasiParts(text, analyzers.convert(text))
  {
    var conversion := analyzers.convert(text);
    if conversion.None? {
      return [Part(text, "", Unknown)];
    }
    var items := conversion.value;
    parts := [];
    for i := 0 to |items|
      invariant parts == KakasiParts(text, Some(items[..i]))
    {
      parts := parts + [ItemPart(items[i])];
    }
    assert items[..|items|] == items;
  }

  /** The hiragana of all items, joined. */
  function JoinedHiragana(items: seq<KakasiItem>): string
  {
    if items == [] then "" else JoinedHiragana(items[..|items| - 1]) + items[|items| - 1].hira.GetOr("")
  }

  /** `_analyze_word`: a kanji word gets the joined hiragana of its conversion as its
      reading, unless the conversion raises or is empty; other words get none. */
  function AnalyzeWord(word: string, analyzers: Analyzers): (p: Part)
    ensures p.text == word && p.kind == Classify(word)
    ensures p.reading != "" ==> p.kind == Kanji && analyzers.hasKakasi
  {
    var kind := Classify(word);
    var conversion := analyzers.convert(word);
    if kind == Kanji && analyzers.hasKakasi && conversion.Some? && conversion.value != [] then
      var reading := JoinedHiragana(conversion.value);
      Part(word, if reading != word then reading else "", kind)
    else
      Part(word, "", kind)
  }

  /** The parts of `_mecab_tokenize`: one per non-empty word. */
  function MecabParts(words: seq<string>, analyzers: Analyzers): (parts: seq<Part>)
    ensures |parts| <= |words|
    ensures forall i :: 0 <= i < |parts| ==>
              parts[i].text in words && parts[i].text != [] && parts[i].kind == Classify(parts[i].text)
  {
    if words == [] then []
    else
      var init := MecabParts(words[..|words| - 1], analyzers);
      var word := words[|words| - 1];
      if word == [] then init else init + [AnalyzeWord(word, analyzers)]
  }

  /** The non-empty words, in order. */
  function NonEmptyWords(words: seq<string>): (kept: seq<string>)
    ensures |kept| <= |words|
    ensures forall w :: w in kept <==> w in words && w != []
  {
    if words == [] then []
    else (if words[0] == [] then [] else [words[0]]) + NonEmptyWords(words[1..])
  }

  lemma {:induction false} NonEmptyWordsAppend(words: seq<string>, word: string)
    ensures NonEmptyWords(words + [word]) == NonEmptyWords(words) + (if word == [] then [] else [word])
    decreases |words|
  {
    if words == [] {
      assert NonEmptyWords([word]) == (if word == [] then [] else [word]) + NonEmptyWords([]);
    } else {
      assert (words + [word])[1..] == words[1..] + [word];
      NonEmptyWordsAppend(words[1..], word);
    }
  }

  /** The MeCab parts are the non-empty words, in MeCab's order, each analysed on its own. */
  lemma {:induction false} MecabPartsAnalyseNonEmptyWords(words: seq<string>, analyzers: Analyzers)
    ensures var kept := NonEmptyWords(words);
            var parts := MecabParts(words, analyzers);
            |parts| == |kept| && forall i :: 0 <= i < |parts| ==> parts[i] == AnalyzeWord(kept[i], analyzers)
    decreases |words|
  {
    if words != [] {
      var init := words[..|words| - 1];
      assert words == init + [words[|words| - 1]];
      MecabPartsAnalyseNonEmptyWords(init, analyzers);
      NonEmptyWordsAppend(init, words[|words| - 1]);
    }
  }

  /** `_mecab_tokenize`: the loop over MeCab's words, skipping empty ones. */
  method MecabTokenize(text: string, analyzers: Analyzers) returns (parts: seq<Part>)
    ensures parts == MecabParts(analyzers.mecabWords(text), analyzers)
  {
    var words := analyzers.mecabWords(text);
    parts := [];
    for i := 0 to |words|
      invariant parts == MecabParts(words[..i], analyzers)
    {
      assert words[..i + 1][..i] == words[..i];
      var word := words[i];
      if word == [] {
        continue;
      }
      parts := parts + [AnalyzeWord(word, analyzers)];
    }
    assert words[..|words|] == words;
  }

  /** `_tokenize_and_analyze`: MeCab when it is available, kakasi otherwise. */
  function Parts(text: string, analyzers: Analyzers): (parts: seq<Part>)
    ensures forall p :: p in parts ==> p.reading == "" || p.reading != p.text
    ensures !analyzers.hasMecab && analyzers.convert(text).None? ==> parts == [Part(text, "", Unknown)]
  {
    ReadingDiffersFromText(text, analyzers);
    if analyzers.hasMecab then MecabParts(analyzers.mecabWords(text), analyzers)
    else KakasiParts(text, analyzers.convert(text))
  }

  /** A recorded reading is never the token itself: a reading equal to it is dropped. */
  lemma ReadingDiffersFromText(text: string, analyzers: Analyzers)
    ensures analyzers.hasMecab ==>
              forall p :: p in MecabParts(analyzers.mecabWords(text), analyzers) ==> p.reading == "" || p.reading != p.text
    ensures !analyzers.hasMecab ==>
              forall p :: p in KakasiParts(text, analyzers.convert(text)) ==> p.reading == "" || p.reading != p.text
  {
    if analyzers.hasMecab {
      MecabReadings(analyzers.mecabWords(text), analyzers);
    }
  }

  lemma {:induction false} MecabReadings(words: seq<string>, analyzers: Analyzers)
    ensures forall p :: p in MecabParts(words, analyzers) ==> p.reading == "" || p.reading != p.text
  {
    if words != [] {
      MecabReadings(words[..|words| - 1], analyzers);
    }
  }

  // ---------------------------------------------------------------------------
  // Annotated text
  // ---------------------------------------------------------------------------

  /** A part is written with its reading when it is kanji and has one. */
  predicate Annotated(p: Part)
  {
    p.kind == Kanji && p.reading != ""
  }

  /** How `_add_furigana_to_text` writes one part: `text(reading)` or the bare text. */
  function PartText(p: Part): (s: string)
    ensures |s| >= |p.text| && s[..|p.text|] == p.text
    ensures s == p.text <==> !Annotated(p)
    ensures Annotated(p) ==> s[|p.text|..] == "(" + p.reading + ")"
  {
    if Annotated(p) then p.text + "(" + p.reading + ")" else p.text
  }

  /** `''.join(furigana_text_parts)`. */
  function AnnotatedText(parts: seq<Part>): string
  {
    if parts == [] then "" else AnnotatedText(parts[..|parts| - 1]) + PartText(parts[|parts| - 1])
  }

  /** The texts of the parts, without readings. */
  function PlainText(parts: seq<Part>): string
  {
    if parts == [] then "" else PlainText(parts[..|parts| - 1]) + parts[|parts| - 1].text
  }

  /** The annotated text is the plain text exactly when no part carries a reading
      annotation; each annotation makes it longer. */
  lemma {:induction false} AnnotatedTextLength(parts: seq<Part>)
    ensures |AnnotatedText(parts)| >= |PlainText(parts)|
    ensures AnnotatedText(parts) == PlainText(parts) <==> forall i :: 0 <= i < |parts| ==> !Annotated(parts[i])
  {
    if parts != [] {
      var init := parts[..|parts| - 1];
      AnnotatedTextLength(init);
      assert forall i :: 0 <= i < |init| ==> init[i] == parts[i];
      if AnnotatedText(parts) == PlainText(parts) && !Annotated(parts[|parts| - 1]) {
        assert AnnotatedText(init) == AnnotatedText(parts)[..|AnnotatedText(init)|];
        assert PlainText(init) == PlainText(parts)[..|PlainText(init)|];
      }
    }
  }

  datatype FuriganaLine = FuriganaLine(text: string, parts: seq<Part>)

  /** What `_add_furigana_to_text` returns for a text. */
  function Furigana(text: string, analyzers: Analyzers): (line: FuriganaLine)
    ensures !analyzers.hasKakasi ==> line == FuriganaLine(text, [Part(text, "", Unknown)])
    ensures analyzers.hasKakasi ==> line.parts == Parts(text, analyzers)
  {
    if !analyzers.hasKakasi then FuriganaLine(text, [Part(text, "", Unknown)])
    else
      var parts := Parts(text, analyzers);
      FuriganaLine(AnnotatedText(parts), parts)
  }

  /** `_add_furigana_to_text`: tokenizes, then writes each part in turn. */
  method AddFurigana(text: string, analyzers: Analyzers) returns (line: FuriganaLine)
    ensures line == Furigana(text, analyzers)
    ensures line.text == AnnotatedText(line.parts) || !analyzers.hasKakasi
  {
    if !analyzers.hasKakasi {
      return FuriganaLine(text, [Part(text, "", Unknown)]);
    }
    var parts;
    if analyzers.hasMecab {
      parts := MecabTokenize(text, analyzers);
    } else {
      parts := KakasiTokenize(text, analyzers);
    }
    var pieces := "";
    for i := 0 to |parts|
      invariant pieces == AnnotatedText(parts[..i])
    {
      assert parts[..i + 1][..i] == parts[..i];
      pieces := pieces + PartText(parts[i]);
    }
    assert parts[..|parts|] == parts;
    line := FuriganaLine(pieces, parts);
  }

  /** Kakasi items that cover the text and carry no readings leave it as it is. */
  lemma KakasiWithoutReadings(text: string, analyzers: Analyzers)
    requires analyzers.hasKakasi && !analyzers.hasMecab && analyzers.convert(text).Some?
    requires var items := analyzers.convert(text).value;
             forall i :: 0 <= i < |items| ==> items[i].hira.GetOr("") == items[i].orig.GetOr("")
    requires PlainText(Parts(text, analyzers)) == text
    ensures Furigana(text, analyzers).text == text
  {
    AnnotatedTextLength(Parts(text, analyzers));
  }

  // ---------------------------------------------------------------------------
  // Pages
  // ---------------------------------------------------------------------------

  datatype FuriganaLineInfo = FuriganaLineInfo(
    originalText: string,
    furiganaText: string,
    furiganaParts: seq<Part>,
    boundingBox: seq<real>,
    confidence: real)

  datatype FuriganaPage = FuriganaPage(pageNumber: nat, width: real, height: real, lines: seq<FuriganaLineInfo>)

  datatype FuriganaResult = FuriganaResult(
    originalOcr: Ocr.OcrResult,
    furiganaText: string,
    furiganaLines: seq<string>,
    furiganaPages: seq<FuriganaPage>)

  /** The furigana texts of the lines of the pages, page after page. */
  function FuriganaTexts(pages: seq<FuriganaPage>): seq<string>
  {
    if pages == [] then [] else FuriganaTexts(pages[..|pages| - 1]) + LineFuriganaTexts(pages[|pages| - 1].lines)
  }

  function LineFuriganaTexts(lines: seq<FuriganaLineInfo>): (r: seq<string>)
    ensures |r| == |lines| && forall i :: 0 <= i < |lines| ==> r[i] == lines[i].furiganaText
  {
    seq(|lines|, i requires 0 <= i < |lines| => lines[i].furiganaText)
  }

  /** The furigana form of one OCR line. */
  function LineOf(line: Ocr.LineInfo, analyzers: Analyzers): FuriganaLineInfo
  {
    var f := Furigana(line.text, analyzers);
    FuriganaLineInfo(line.text, f.text, f.parts, line.boundingBox, line.confidence)
  }

  /** The furigana form of one OCR page: same number and size, each line with its furigana. */
  function PageOf(page: Ocr.PageInfo, analyzers: Analyzers): (r: FuriganaPage)
    ensures r.pageNumber == page.pageNumber && r.width == page.width && r.height == page.height
    ensures |r.lines| == |page.lines|
    ensures forall l :: 0 <= l < |page.lines| ==> r.lines[l] == LineOf(page.lines[l], analyzers)
  {
    FuriganaPage(page.pageNumber, page.width, page.height,
                 seq(|page.lines|, l requires 0 <= l < |page.lines| => LineOf(page.lines[l], analyzers)))
  }

  /** The inner loop of `extract_text_with_furigana`: the lines of one page, in turn. */
  method AddFuriganaToPage(page: Ocr.PageInfo, analyzers: Analyzers) returns (r: FuriganaPage)
    ensures r == PageOf(page, analyzers)
  {
    var lines: seq<FuriganaLineInfo> := [];
    for l := 0 to |page.lines|
      invariant |lines| == l
      invariant forall k :: 0 <= k < l ==> lines[k] == LineOf(page.lines[k], analyzers)
    {
      var lineInfo := page.lines[l];
      var furigana := AddFurigana(lineInfo.text, analyzers);
      lines := lines + [FuriganaLineInfo(lineInfo.text, furigana.text, furigana.parts,
                                         lineInfo.boundingBox, lineInfo.confidence)];
    }
    r := FuriganaPage(page.pageNumber, page.width, page.height, lines);
  }

  /** The collection loop of `extract_text_with_furigana`: every furigana line, page after
      page. */
  method CollectFuriganaLines(pages: seq<FuriganaPage>) returns (allLines: seq<string>)
    ensures allLines == FuriganaTexts(pages)
  {
    allLines := [];
    for p := 0 to |pages|
      invariant allLines == FuriganaTexts(pages[..p])
    {
      assert pages[..p + 1][..p] == pages[..p];
      var before := allLines;
      var lines := pages[p].lines;
      for l := 0 to |lines|
        invariant allLines == before + LineFuriganaTexts(lines[..l])
      {
        assert LineFuriganaTexts(lines[..l + 1]) == LineFuriganaTexts(lines[..l]) + [lines[l].furiganaText];
        allLines := allLines + [lines[l].furiganaText];
      }
      assert lines[..|lines|] == lines;
    }
    assert pages[..|pages|] == pages;
  }

  /** `extract_text_with_furigana`, given the OCR result of the image: the pages keep their
      number, size and lines, each line gains its furigana; then every furigana line is
      collected, page after page, and joined with newlines. */
  method ExtractTextWithFurigana(ocr: Ocr.OcrResult, analyzers: Analyzers) returns (result: FuriganaResult)
    ensures result.originalOcr == ocr
    ensures |result.furiganaPages| == |ocr.pages|
    ensures forall p :: 0 <= p < |ocr.pages| ==>
              && result.furiganaPages[p].pageNumber == ocr.pages[p].pageNumber
              && result.furiganaPages[p].width == ocr.pages[p].width
              && result.furiganaPages[p].height == ocr.pages[p].height
              && |result.furiganaPages[p].lines| == |ocr.pages[p].lines|
    ensures forall p, l :: 0 <= p < |ocr.pages| && 0 <= l < |result.furiganaPages[p].lines| ==>
              result.furiganaPages[p].lines[l] == LineOf(ocr.pages[p].lines[l], analyzers)
    ensures result.furiganaLines == FuriganaTexts(result.furiganaPages)
    ensures result.furiganaText == Join(result.furiganaLines, "\n")
  {
    var pages: seq<FuriganaPage> := [];
    for p := 0 to |ocr.pages|
      invariant |pages| == p
      invariant forall q :: 0 <= q < p ==> pages[q] == PageOf(ocr.pages[q], analyzers)
    {
      var furiganaPage := AddFuriganaToPage(ocr.pages[p], analyzers);
      pages := pages + [furiganaPage];
    }
    var allLines := CollectFuriganaLines(pages);
    result := FuriganaResult(ocr, Join(allLines, "\n"), allLines, pages);
  }

  /** With the same pages and line counts, the furigana lines are listed in the same
      places as the OCR lines; without kakasi they are the OCR lines themselves. */
  lemma {:induction false} FuriganaTextsMatchOcr(pages: seq<FuriganaPage>, ocrPages: seq<Ocr.PageInfo>, analyzers: Analyzers)
    requires |pages| == |ocrPages|
    requires forall p :: 0 <= p < |pages| ==> |pages[p].lines| == |ocrPages[p].lines|
    requires forall p, l :: 0 <= p < |pages| && 0 <= l < |pages[p].lines| ==>
               pages[p].lines[l] == LineOf(ocrPages[p].lines[l], analyzers)
    ensures |FuriganaTexts(pages)| == |Ocr.PageTexts(ocrPages)|
    ensures !analyzers.hasKakasi ==> FuriganaTexts(pages) == Ocr.PageTexts(ocrPages)
  {
    if pages != [] {
      var n := |pages| - 1;
      FuriganaTextsMatchOcr(pages[..n], ocrPages[..n], analyzers);
      if !analyzers.hasKakasi {
        assert LineFuriganaTexts(pages[n].lines) == Ocr.LineTexts(ocrPages[n].lines);
      }
    }
  }

  /** Without kakasi, the furigana text of an image is its OCR text. */
  lemma NoKakasiKeepsOcrText(ocr: Ocr.OcrResult, analyzers: Analyzers, result: FuriganaResult)
    requires !analyzers.hasKakasi && ocr.lines == Ocr.PageTexts(ocr.pages)
    requires ocr.fullText == Join(ocr.lines, "\n")
    requires |result.furiganaPages| == |ocr.pages|
    requires forall p :: 0 <= p < |ocr.pages| ==> |result.furiganaPages[p].lines| == |ocr.pages[p].lines|
    requires forall p, l :: 0 <= p < |ocr.pages| && 0 <= l < |result.furiganaPages[p].lines| ==>
               result.furiganaPages[p].lines[l] == LineOf(ocr.pages[p].lines[l], analyzers)
    requires result.furiganaLines == FuriganaTexts(result.furiganaPages)
    requires result.furiganaText == Join(result.furiganaLines, "\n")
    ensures result.furiganaLines == ocr.lines && result.furiganaText == ocr.fullText
  {
    FuriganaTextsMatchOcr(result.furiganaPages, ocr.pages, analyzers);
  }

  // ---------------------------------------------------------------------------
  // HTML
  // ---------------------------------------------------------------------------

  const Css := "\n        <style>\n        .furigana-text {\n            font-family: 'Noto Sans JP', 'Hiragino Sans', 'Yu Gothic', sans-serif;\n            line-height: 2;\n            font-size: 18px;\n        }\n        .page {\n            margin-bottom: 20px;\n            padding: 10px;\n            border: 1px solid #ddd;\n        }\n        .line {\n            margin-bottom: 10px;\n        }\n        ruby {\n            ruby-align: center;\n        }\n        rt {\n            font-size: 0.7em;\n            color: #666;\n        }\n        </style>\n        "

  const FuriganaOpen := "<div class=\"furigana-text\">"
  const LineOpen := "<div class=\"line\">"
  const Close := "</div>"

  function PageOpen(pageNumber: nat): string
  {
    "<div class=\"page\" data-page=\"" + Decimal(pageNumber) + "\">"
  }

  /** A part in HTML: a ruby element for an annotated kanji part, else its bare text. */
  function PartHtml(p: Part): (s: string)
    ensures s == p.text <==> !Annotated(p)
    ensures Annotated(p) ==>
              && |s| == |p.text| + |p.reading| + 22
              && p.text <= s[6..] && p.reading <= s[6 + |p.text| + 4..]
  {
    if Annotated(p) then "<ruby>" + p.text + "<rt>" + p.reading + "</rt></ruby>" else p.text
  }

  /** The HTML and the annotated text decorate the same parts. */
  lemma HtmlAgreesWithText(p: Part)
    ensures PartHtml(p) != p.text <==> PartText(p) != p.text
  {
  }

  function PartsHtml(parts: seq<Part>): seq<string>
  {
    seq(|parts|, i requires 0 <= i < |parts| => PartHtml(parts[i]))
  }

  /** The pieces of one line: its div, its parts, the closing tag. */
  function LinePieces(line: FuriganaLineInfo): seq<string>
  {
    [LineOpen] + PartsHtml(line.furiganaParts) + [Close]
  }

  function LinesPieces(lines: seq<FuriganaLineInfo>): seq<string>
  {
    if lines == [] then [] else LinesPieces(lines[..|lines| - 1]) + LinePieces(lines[|lines| - 1])
  }

  /** The pieces of one page: its div with the page number, its lines, the closing tag. */
  function PagePieces(page: FuriganaPage): seq<string>
  {
    [PageOpen(page.pageNumber)] + LinesPieces(page.lines) + [Close]
  }

  function PagesPieces(pages: seq<FuriganaPage>): seq<string>
  {
    if pages == [] then [] else PagesPieces(pages[..|pages| - 1]) + PagePieces(pages[|pages| - 1])
  }

  /** The document: the style sheet, then the pieces one per line. */
  function Document(pieces: seq<string>): string
  {
    Css + "\n" + Join(pieces, "\n")
  }

  /** `generate_html_furigana`: the style sheet, then the pieces built for the pages. */
  method GenerateHtml(result: FuriganaResult) returns (html: string)
    ensures html == Document([FuriganaOpen] + PagesPieces(result.furiganaPages) + [Close])
  {
    var htmlParts := HtmlPieces(result.furiganaPages);
    html := Document(htmlParts);
  }

  /** The loops of `generate_html_furigana` that fill `html_parts`: one piece per tag or
      part, inside the outer div. */
  method HtmlPieces(pages: seq<FuriganaPage>) returns (htmlParts: seq<string>)
    ensures htmlParts == [FuriganaOpen] + PagesPieces(pages) + [Close]
  {
    htmlParts := [FuriganaOpen];
    for p := 0 to |pages|
      invariant htmlParts == [FuriganaOpen] + PagesPieces(pages[..p])
    {
      var page := pages[p];
      var beforePage := htmlParts;
      htmlParts := htmlParts + [PageOpen(page.pageNumber)];
      var pageStart := htmlParts;
      for l := 0 to |page.lines|
        invariant htmlParts == pageStart + LinesPieces(page.lines[..l])
      {
        var line := page.lines[l];
        var beforeLine := htmlParts;
        htmlParts := htmlParts + [LineOpen];
        var lineStart := htmlParts;
        for k := 0 to |line.furiganaParts|
          invariant htmlParts == lineStart + PartsHtml(line.furiganaParts[..k])
        {
          var piece := PartHtml(line.furiganaParts[k]);
          assert htmlParts + [piece] == lineStart + PartsHtml(line.furiganaParts[..k + 1]) by {
            PartsHtmlAppend(line.furiganaParts, k);
            Assoc(lineStart, PartsHtml(line.furiganaParts[..k]), [piece]);
          }
          htmlParts := htmlParts + [piece];
        }
        assert htmlParts + [Close] == beforeLine + LinePieces(line) by {
          assert line.furiganaParts[..|line.furiganaParts|] == line.furiganaParts;
          Assoc3(beforeLine, [LineOpen], PartsHtml(line.furiganaParts), [Close]);
        }
        htmlParts := htmlParts + [Close];
        assert htmlParts == pageStart + LinesPieces(page.lines[..l + 1]) by {
          LinesPiecesAppend(page.lines, l);
          Assoc(pageStart, LinesPieces(page.lines[..l]), LinePieces(line));
        }
      }
      assert htmlParts + [Close] == beforePage + PagePieces(page) by {
        assert page.lines[..|page.lines|] == page.lines;
        Assoc3(beforePage, [PageOpen(page.pageNumber)], LinesPieces(page.lines), [Close]);
      }
      htmlParts := htmlParts + [Close];
      assert htmlParts == [FuriganaOpen] + PagesPieces(pages[..p + 1]) by {
        PagesPiecesAppend(pages, p);
        Assoc([FuriganaOpen], PagesPieces(pages[..p]), PagePieces(page));
      }
    }
    assert pages[..|pages|] == pages;
    htmlParts := htmlParts + [Close];
  }

  lemma Assoc(a: seq<string>, b: seq<string>, c: seq<string>)
    ensures a + b + c == a + (b + c)
  {
  }

  lemma Assoc3(a: seq<string>, b: seq<string>, c: seq<string>, d: seq<string>)
    ensures a + b + c + d == a + (b + c + d)
  {
  }

  lemma PartsHtmlAppend(parts: seq<Part>, k: nat)
    requires k < |parts|
    ensures PartsHtml(parts[..k + 1]) == PartsHtml(parts[..k]) + [PartHtml(parts[k])]
  {
  }

  lemma LinesPiecesAppend(lines: seq<FuriganaLineInfo>, l: nat)
    requires l < |lines|
    ensures LinesPieces(lines[..l + 1]) == LinesPieces(lines[..l]) + LinePieces(lines[l])
  {
    assert lines[..l + 1][..l] == lines[..l];
  }

  lemma PagesPiecesAppend(pages: seq<FuriganaPage>, p: nat)
    requires p < |pages|
    ensures PagesPieces(pages[..p + 1]) == PagesPieces(pages[..p]) + PagePieces(pages[p])
  {
    assert pages[..p + 1][..p] == pages[..p];
  }

  /** Each page contributes its div, a div per line holding one piece per part, and the
      closing tags. */
  lemma {:induction false} PagePiecesCount(lines: seq<FuriganaLineInfo>)
    ensures |LinesPieces(lines)| == LinePartCount(lines) + 2 * |lines|
  {
    if lines != [] {
      PagePiecesCount(lines[..|lines| - 1]);
    }
  }

  function LinePartCount(lines: seq<FuriganaLineInfo>): nat
  {
    if lines == [] then 0 else LinePartCount(lines[..|lines| - 1]) + |lines[|lines| - 1].furiganaParts|
  }
}
