/** `extractKanji` (kanjiUtils.js): the kanji of a text, each once, in the order of
    their first occurrence. */
module KanjiUtils {
  import opened Wrappers
  import opened Text

  /** The regular expression class `[\u4e00-\u9faf]`. */
  predicate IsKanji(c: char)
  {
    '\U{4e00}' <= c <= '\U{9faf}'
  }

  /** `text.match(/[\u4e00-\u9faf]/g) || []`: every kanji of `s`, in order, repeats included. */
  function KanjiMatches(s: string): (r: string)
    ensures forall c :: c in r <==> c in s && IsKanji(c)
    ensures |r| <= |s|
  {
    if s == [] then []
    else (if IsKanji(s[0]) then [s[0]] else []) + KanjiMatches(s[1..])
  }

  /** The first occurrence of each element of `s`, in order. Defined from the back so that
      it follows a left-to-right loop over `s`. */
  function Dedup(s: string): (r: string)
    ensures |r| <= |s|
  {
    if s == [] then []
    else
      var u := Dedup(s[..|s| - 1]);
      if s[|s| - 1] in u then u else u + [s[|s| - 1]]
  }

  predicate Distinct(s: string)
  {
    forall i, j :: 0 <= i < j < |s| ==> s[i] != s[j]
  }

  /** The text argument: JavaScript's missing value is `None`. */
  function TextOrEmpty(text: Option<string>): string
  {
    if text.Some? then text.value else []
  }

  /** `extractKanji(text)`: a falsy text gives []; otherwise the matches are scanned once,
      with a set of the kanji already taken. */
  method ExtractKanji(text: Option<string>) returns (unique: seq<char>)
    ensures text.None? || text.value == [] ==> unique == []
    ensures unique == Dedup(KanjiMatches(TextOrEmpty(text)))
  {
    if text.None? || text.value == [] {
      return [];
    }
    var matches := KanjiMatches(text.value);
    unique := [];
    var seen: set<char> := {};
    for i := 0 to |matches|
      invariant unique == Dedup(matches[..i])
      invariant forall c :: c in seen <==> c in unique
    {
      assert matches[..i + 1][..i] == matches[..i];
      var kanji := matches[i];
      if kanji !in seen {
        seen := seen + {kanji};
        unique := unique + [kanji];
      }
    }
    assert matches[..|matches|] == matches;
  }

  /** The deduplicated sequence holds exactly the elements of its input. */
  lemma {:induction false} DedupElements(s: string)
    ensures forall c :: c in Dedup(s) <==> c in s
  {
    if s != [] {
      var p := s[..|s| - 1];
      DedupElements(p);
      assert s == p + [s[|s| - 1]];
    }
  }

  lemma {:induction false} DedupDistinct(s: string)
    ensures Distinct(Dedup(s))
  {
    if s != [] {
      DedupDistinct(s[..|s| - 1]);
    }
  }

  /** Appending an element does not move the first occurrence of an earlier one. */
  lemma {:induction false} FirstIndexAppend(s: string, x: char, c: char)
    requires c in s
    ensures c in s + [x] && FirstIndex(s + [x], c) == FirstIndex(s, c)
  {
    assert (s + [x])[0] == s[0];
    if s[0] != c {
      assert c in s[1..] by {
        var i :| 0 <= i < |s| && s[i] == c;
        assert s[1..][i - 1] == c;
      }
      assert (s + [x])[1..] == s[1..] + [x];
      FirstIndexAppend(s[1..], x, c);
    }
  }

  /** An element absent from `p` first occurs at the end of `p + [x]`. */
  lemma {:induction false} FirstIndexOfNew(p: string, x: char)
    requires x !in p
    ensures FirstIndex(p + [x], x) == |p|
  {
    if p != [] {
      assert (p + [x])[0] == p[0];
      assert (p + [x])[1..] == p[1..] + [x];
      FirstIndexOfNew(p[1..], x);
    }
  }

  /** The output lists the elements in the order of their first occurrence in the input. */
  lemma {:induction false} DedupOrder(s: string)
    ensures forall c :: c in Dedup(s) ==> c in s
    ensures forall i, j :: 0 <= i < j < |Dedup(s)| ==> FirstIndex(s, Dedup(s)[i]) < FirstIndex(s, Dedup(s)[j])
  {
    DedupElements(s);
    if s != [] {
      var p, x := s[..|s| - 1], s[|s| - 1];
      assert s == p + [x];
      var u := Dedup(p);
      DedupOrder(p);
      DedupElements(p);
      forall i, j | 0 <= i < j < |Dedup(s)|
        ensures FirstIndex(s, Dedup(s)[i]) < FirstIndex(s, Dedup(s)[j])
      {
        FirstIndexAppend(p, x, u[i]);
        if j < |u| {
          FirstIndexAppend(p, x, u[j]);
        } else {
          assert Dedup(s)[j] == x && x !in p;
          FirstIndexOfNew(p, x);
        }
      }
    }
  }

  /** A sequence without repeats is its own deduplication. */
  lemma {:induction false} DedupOfDistinct(s: string)
    requires Distinct(s)
    ensures Dedup(s) == s
  {
    if s != [] {
      var p := s[..|s| - 1];
      DedupOfDistinct(p);
      DedupElements(p);
      assert forall i :: 0 <= i < |p| ==> p[i] == s[i] && s[i] != s[|s| - 1];
      assert s[|s| - 1] !in p;
      assert s == p + [s[|s| - 1]];
    }
  }

  /** Text made only of kanji matches itself whole. */
  lemma {:induction false} MatchesOfKanji(s: string)
    requires forall c :: c in s ==> IsKanji(c)
    ensures KanjiMatches(s) == s
  {
    if s != [] {
      MatchesOfKanji(s[1..]);
    }
  }

  /** The matches keep the kanji in the order of the text: of two kanji, the one that
      occurs first in the text occurs first among the matches. */
  lemma {:induction false} KanjiMatchesOrder(s: string, a: char, b: char)
    requires a in s && b in s && IsKanji(a) && IsKanji(b)
    ensures a in KanjiMatches(s) && b in KanjiMatches(s)
    ensures FirstIndex(KanjiMatches(s), a) < FirstIndex(KanjiMatches(s), b) <==> FirstIndex(s, a) < FirstIndex(s, b)
  {
    var m, t := KanjiMatches(s), s[1..];
    if s[0] != a && s[0] != b {
      assert a in t && b in t by {
        var i :| 0 <= i < |s| && s[i] == a;
        var j :| 0 <= j < |s| && s[j] == b;
        assert t[i - 1] == a && t[j - 1] == b;
      }
      KanjiMatchesOrder(t, a, b);
      var mt := KanjiMatches(t);
      if IsKanji(s[0]) {
        assert m == [s[0]] + mt && m[0] == s[0] && m[1..] == mt;
      } else {
        assert m == mt;
      }
    }
  }

  /** Every kanji in the text appears in the output, every output character is a kanji
      of the text, none appears twice, and they come in the order of their first
      occurrence in the text. */
  lemma ExtractKanjiCorrect(s: string)
    ensures var r := Dedup(KanjiMatches(s));
            && (forall c :: c in r <==> c in s && IsKanji(c))
            && Distinct(r)
            && forall i, j :: 0 <= i < j < |r| ==> FirstIndex(s, r[i]) < FirstIndex(s, r[j])
  {
    var m := KanjiMatches(s);
    var r := Dedup(m);
    DedupElements(m);
    DedupDistinct(m);
    DedupOrder(m);
    forall i, j | 0 <= i < j < |r|
      ensures FirstIndex(s, r[i]) < FirstIndex(s, r[j])
    {
      KanjiMatchesOrder(s, r[i], r[j]);
    }
  }

  /** Extracting again from the joined output gives the same list. */
  lemma ExtractKanjiIdempotent(s: string)
    ensures var r := Dedup(KanjiMatches(s));
            Dedup(KanjiMatches(r)) == r
  {
    var r := Dedup(KanjiMatches(s));
    ExtractKanjiCorrect(s);
    MatchesOfKanji(r);
    DedupOfDistinct(r);
  }
}
