/** `getSortedKanjiList` (SidebarKanji.js): the extracted kanji in the order the sort
    option asks for. The kanji are paired with their looked-up data, the pairs are
    sorted with a stable comparator, and the kanji are read back; since the data is a
    function of the kanji, this is a stable sort of the kanji by a key. */
module SidebarKanji {
  import opened Wrappers
  import opened Sorting

  /** The fields of a kanjiapi.dev record that the sort reads. */
  datatype KanjiApiData = KanjiApiData(jlpt: Option<int>, strokeCount: Option<int>)

  /** What `fetchKanjiInfo` stored for a kanji; `data` is absent when the lookup failed. */
  datatype KanjiInfo = KanjiInfo(data: Option<KanjiApiData>)

  /** `kanjiData[kanji]?.data?.jlpt || 0`. */
  function Jlpt(kanjiData: map<string, KanjiInfo>, kanji: string): (level: int)
    ensures kanji !in kanjiData || kanjiData[kanji].data.None? || kanjiData[kanji].data.value.jlpt.None? ==> level == 0
    ensures kanji in kanjiData && kanjiData[kanji].data.Some? && kanjiData[kanji].data.value.jlpt.Some? ==>
              level == kanjiData[kanji].data.value.jlpt.value
  {
    if kanji in kanjiData && kanjiData[kanji].data.Some? && kanjiData[kanji].data.value.jlpt.Some?
    then kanjiData[kanji].data.value.jlpt.value
    else 0
  }

  /** `kanjiData[kanji]?.data?.stroke_count || 0`. */
  function Strokes(kanjiData: map<string, KanjiInfo>, kanji: string): (count: int)
    ensures kanji !in kanjiData || kanjiData[kanji].data.None? || kanjiData[kanji].data.value.strokeCount.None? ==> count == 0
    ensures kanji in kanjiData && kanjiData[kanji].data.Some? && kanjiData[kanji].data.value.strokeCount.Some? ==>
              count == kanjiData[kanji].data.value.strokeCount.value
  {
    if kanji in kanjiData && kanjiData[kanji].data.Some? && kanjiData[kanji].data.value.strokeCount.Some?
    then kanjiData[kanji].data.value.strokeCount.value
    else 0
  }

  predicate IsSortOption(option: string)
  {
    option in {"jlpt-easy", "jlpt-hard", "stroke-asc", "stroke-desc"}
  }

  /** The ascending sort key each option's comparator stands for: `b - a` comparators
      sort by the negated value. */
  function OptionKey(kanjiData: map<string, KanjiInfo>, option: string): string -> int
  {
    if option == "jlpt-easy" then k => -Jlpt(kanjiData, k)
    else if option == "jlpt-hard" then k => Jlpt(kanjiData, k)
    else if option == "stroke-asc" then k => Strokes(kanjiData, k)
    else if option == "stroke-desc" then k => -Strokes(kanjiData, k)
    else k => 0
  }

  /** `getSortedKanjiList()`; 'chronological' and every other option return the list as it is. */
  function SortedKanjiList(kanjiList: seq<string>, kanjiData: map<string, KanjiInfo>, option: string)
    : (sorted: seq<string>)
    ensures |sorted| == |kanjiList|
    ensures !IsSortOption(option) ==> sorted == kanjiList
  {
    if IsSortOption(option) then SortBy(kanjiList, OptionKey(kanjiData, option)) else kanjiList
  }

  /** Every option returns a rearrangement of the list: the same kanji, as often. */
  lemma SortedKanjiPermutation(kanjiList: seq<string>, kanjiData: map<string, KanjiInfo>, option: string)
    ensures multiset(SortedKanjiList(kanjiList, kanjiData, option)) == multiset(kanjiList)
  {
    SortByCorrect(kanjiList, OptionKey(kanjiData, option));
  }

  /** Each option orders the list by its field, a missing value counting as 0. */
  lemma SortedKanjiOrder(kanjiList: seq<string>, kanjiData: map<string, KanjiInfo>, option: string)
    ensures var r := SortedKanjiList(kanjiList, kanjiData, option);
            forall i, j :: 0 <= i < j < |r| ==>
              && (option == "jlpt-easy" ==> Jlpt(kanjiData, r[i]) >= Jlpt(kanjiData, r[j]))
              && (option == "jlpt-hard" ==> Jlpt(kanjiData, r[i]) <= Jlpt(kanjiData, r[j]))
              && (option == "stroke-asc" ==> Strokes(kanjiData, r[i]) <= Strokes(kanjiData, r[j]))
              && (option == "stroke-desc" ==> Strokes(kanjiData, r[i]) >= Strokes(kanjiData, r[j]))
  {
    var key := OptionKey(kanjiData, option);
    SortByCorrect(kanjiList, key);
  }

  /** Kanji with equal keys keep their relative order, as `Array.prototype.sort` is stable. */
  lemma SortedKanjiStable(kanjiList: seq<string>, kanjiData: map<string, KanjiInfo>, option: string, v: int)
    ensures var key := OptionKey(kanjiData, option);
            KeyFilter(SortedKanjiList(kanjiList, kanjiData, option), key, v) == KeyFilter(kanjiList, key, v)
  {
    SortByStable(kanjiList, OptionKey(kanjiData, option), v);
  }
}
