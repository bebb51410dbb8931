/** What `trim` takes for white space. */
module WhiteSpace {

  /** Unicode's White_Space, as ranges. */
  predicate IsSpace(c: char) {
    || c == ' ' || '\t' <= c <= '\r' || c == '\U{85}' || c == '\U{A0}' || c == '\U{1680}'
    || '\U{2000}' <= c <= '\U{200A}' || c == '\U{2028}' || c == '\U{2029}' || c == '\U{202F}' || c == '\U{205F}'
    || c == '\U{3000}'
  }

  /** The same, one by one. */
  const WHITE_SPACE: string :=
    "\t\n\U{B}\U{C}\r \U{85}\U{A0}\U{1680}\U{2000}\U{2001}\U{2002}\U{2003}\U{2004}\U{2005}\U{2006}\U{2007}" +
    "\U{2008}\U{2009}\U{200A}\U{2028}\U{2029}\U{202F}\U{205F}\U{3000}"

  lemma SpaceIff(c: char)
    ensures IsSpace(c) <==> c in WHITE_SPACE
  {
  }

  /** A text of white space alone, and one with none at either end. */
  predicate AllSpace(s: string) {
    forall k | 0 <= k < |s| :: s[k] in WHITE_SPACE
  }

  predicate Trimmed(s: string) {
    s == "" || (s[0] !in WHITE_SPACE && s[|s| - 1] !in WHITE_SPACE)
  }

  lemma AllSpaceIff(s: string)
    ensures AllSpace(s) <==> forall k | 0 <= k < |s| :: IsSpace(s[k])
  {
    forall k | 0 <= k < |s|
      ensures IsSpace(s[k]) <==> s[k] in WHITE_SPACE
    {
      SpaceIff(s[k]);
    }
  }

  lemma TrimmedIff(s: string)
    ensures Trimmed(s) <==> s == "" || (!IsSpace(s[0]) && !IsSpace(s[|s| - 1]))
  {
    if s != "" {
      SpaceIff(s[0]);
      SpaceIff(s[|s| - 1]);
    }
  }
}
