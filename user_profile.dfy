/** `getInitials` (UserProfile.js): the avatar letters shown for a user. */
module UserProfile {
  import opened Wrappers
  import opened Text

  /** `word.charAt(0)`: the first character, or "" for the empty word. */
  function FirstChar(word: string): (r: string)
    ensures |r| <= 1 && (word != [] ==> r == [word[0]])
  {
    if word == [] then "" else [word[0]]
  }

  /** `segments.map(word => word.charAt(0)).join('')`. */
  function Firsts(segments: seq<string>): string
  {
    if segments == [] then "" else FirstChar(segments[0]) + Firsts(segments[1..])
  }

  /** The segments that are not empty: the words of the name. */
  function NonEmpty(segments: seq<string>): (r: seq<string>)
    ensures forall i :: 0 <= i < |r| ==> r[i] != []
  {
    if segments == [] then []
    else (if segments[0] == [] then [] else [segments[0]]) + NonEmpty(segments[1..])
  }

  /** The words of a name: the non-empty pieces between single spaces. */
  function Words(name: string): seq<string>
  {
    NonEmpty(Split(name, ' '))
  }

  function Min(a: int, b: int): int { if a <= b then a else b }

  /** `getInitials(name)`: 'U' for a missing or empty name, else the first letters of the
      space-separated segments, upper-cased, at most two of them. */
  function Initials(name: Option<string>): (r: string)
    ensures |r| <= 2
    ensures name.None? || name.value == [] ==> r == "U"
  {
    if name.None? || name.value == [] then "U"
    else
      var letters := Upper(Firsts(Split(name.value, ' ')));
      letters[..Min(2, |letters|)]
  }

  /** The first letters of the segments are the first letters of the non-empty ones:
      an empty segment contributes nothing. */
  lemma {:induction false} FirstsOfWords(segments: seq<string>)
    ensures var w := NonEmpty(segments);
            |Firsts(segments)| == |w| && forall i :: 0 <= i < |w| ==> Firsts(segments)[i] == w[i][0]
  {
    if segments != [] {
      FirstsOfWords(segments[1..]);
    }
  }

  /** A non-empty name gives one upper-cased letter per word, the first letter of that
      word, for the first two words. */
  lemma InitialsOfWords(name: string)
    requires name != []
    ensures var w, r := Words(name), Initials(Some(name));
            |r| == Min(2, |w|) && forall i :: 0 <= i < |r| ==> r[i] == UpperChar(w[i][0])
  {
    FirstsOfWords(Split(name, ' '));
  }

  /** Spaces alone split into empty segments only, so such a name gives no letters at all
      (not the 'U' of an empty name). */
  lemma {:induction false} OnlySpacesNoWords(name: string)
    requires forall i :: 0 <= i < |name| ==> name[i] == ' '
    ensures Words(name) == []
  {
    if name != [] {
      OnlySpacesNoWords(name[1..]);
      var rest := Split(name[1..], ' ');
      assert Split(name, ' ') == [""] + rest;
      assert Split(name, ' ')[1..] == rest;
    }
  }

  lemma OnlySpacesInitials(name: string)
    requires name != [] && forall i :: 0 <= i < |name| ==> name[i] == ' '
    ensures Initials(Some(name)) == ""
  {
    OnlySpacesNoWords(name);
    InitialsOfWords(name);
  }
}
