/** The profanity screener: a case-insensitive substring test of the text
    against a fixed word set. */
module Screener {
  import opened Wrappers
  import opened Text

  /** The disallowed words. */
  const ProfaneWords: set<string> := {"badword", "nasty"}

  /** One enumeration of `ProfaneWords`. The service iterates a hash set, whose
      order is unspecified; the contracts below do not depend on the order. */
  const ProfaneOrder: seq<string> := ["badword", "nasty"]

  /** `word.lower() in text.lower()`. */
  predicate Flags(word: string, text: string) {
    Occurs(Lower(word), Lower(text))
  }

  /** The first word of `words` that the text contains, if any. */
  function FirstMatch(words: seq<string>, text: string): (r: Option<string>)
    ensures r.None? <==> forall w :: w in words ==> !Flags(w, text)
    ensures r.Some? ==> r.value in words && Flags(r.value, text)
  {
    if |words| == 0 then None
    else if Flags(words[0], text) then Some(words[0])
    else
      assert forall w :: w in words ==> w == words[0] || w in words[1..];
      FirstMatch(words[1..], text)
  }

  /** `contains_profanity`: some profane word the text contains, or `None`
      exactly when it contains none of them. */
  function ContainsProfanity(text: string): (r: Option<string>)
    ensures r.None? <==> forall w :: w in ProfaneWords ==> !Flags(w, text)
    ensures r.Some? ==> r.value in ProfaneWords && Flags(r.value, text)
  {
    assert forall w :: w in ProfaneOrder <==> w in ProfaneWords;
    FirstMatch(ProfaneOrder, text)
  }

  /** Whether the screener objects does not depend on the order in which the
      word set is enumerated. */
  lemma OrderIrrelevant(words: seq<string>, text: string)
    requires forall w :: w in words <==> w in ProfaneWords
    ensures FirstMatch(words, text).None? <==> ContainsProfanity(text).None?
    ensures FirstMatch(words, text).Some? ==> FirstMatch(words, text).value in ProfaneWords
  {
  }

  /** Screening ignores ASCII case: texts equal after lower-casing are screened alike. */
  lemma {:induction false} FirstMatchCaseInsensitive(words: seq<string>, a: string, b: string)
    requires Lower(a) == Lower(b)
    ensures FirstMatch(words, a) == FirstMatch(words, b)
  {
    if |words| > 0 {
      FirstMatchCaseInsensitive(words[1..], a, b);
    }
  }

  lemma CaseInsensitive(a: string, b: string)
    requires Lower(a) == Lower(b)
    ensures ContainsProfanity(a) == ContainsProfanity(b)
  {
    FirstMatchCaseInsensitive(ProfaneOrder, a, b);
  }

  /** A text containing a profane word in any ASCII case, anywhere, is flagged. */
  lemma FlagsAnywhere(word: string, text: string, i: nat)
    requires word in ProfaneWords
    requires i + |word| <= |text| && Lower(text[i..i + |word|]) == word
    ensures ContainsProfanity(text).Some?
  {
    assert Lower(word) == word;
    var piece := text[i..i + |word|];
    var lowered := Lower(text)[i..i + |word|];
    forall j | 0 <= j < |word|
      ensures lowered[j] == Lower(piece)[j]
    {
      assert piece[j] == text[i + j];
    }
    assert lowered == Lower(piece);
    assert OccursAt(Lower(word), Lower(text), i);
    OccursIffSomePosition(Lower(word), Lower(text));
  }
}
