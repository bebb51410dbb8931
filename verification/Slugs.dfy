/** A URL slug from a title. What Unicode says of a character is a
    parameter; what the slug looks like does not depend on it. */
module Slugs {
  const MAX_SLUG_BYTES: nat := 80

  /** Compatibility decomposition, combining marks, letters and digits,
      lower case, and the bytes of a character in UTF-8. */
  datatype Unicode = Unicode(
    decompose: string -> string,
    isMark: char -> bool,
    isAlphanumeric: char -> bool,
    lower: char -> string,
    width: char -> nat)

  /** All that is asked of the tables: a hyphen is one byte, and never the
      lower case of a letter. */
  ghost predicate Sane(u: Unicode) {
    && u.width('-') == 1
    && (forall c :: 1 <= u.width(c) <= 4)
    && (forall c | u.isAlphanumeric(c) :: u.lower(c) != "" && '-' !in u.lower(c))
  }

  function ByteLen(u: Unicode, s: string): nat {
    if s == "" then 0 else ByteLen(u, s[..|s| - 1]) + u.width(s[|s| - 1])
  }

  /** Words joined by single hyphens: none at an end, no two together. */
  predicate Hyphenated(s: string) {
    && s != "" && s[0] != '-' && s[|s| - 1] != '-'
    && forall i | 0 <= i < |s| - 1 && s[i] == '-' :: s[i + 1] != '-'
  }

  predicate IsBoundary(u: Unicode, s: string, at: nat) {
    exists k | 0 <= k <= |s| :: ByteLen(u, s[..k]) == at
  }

  /** `trim_matches('-')`. */
  function Trimmed(s: string): string {
    if s != "" && s[0] == '-' then Trimmed(s[1..])
    else if s != "" && s[|s| - 1] == '-' then Trimmed(s[..|s| - 1])
    else s
  }

  lemma {:induction false} ByteLenPrefix(u: Unicode, s: string, k: nat)
    requires Sane(u) && k <= |s|
    ensures ByteLen(u, s[..k]) <= ByteLen(u, s)
    decreases |s| - k
  {
    if k < |s| {
      ByteLenPrefix(u, s, k + 1);
      assert s[..k + 1][..k] == s[..k];
    } else {
      assert s[..k] == s;
    }
  }

  /** A text's bytes are those of its characters. */
  lemma {:induction false} ByteLenIsSum(u: Unicode, a: string, b: string)
    ensures ByteLen(u, a + b) == ByteLen(u, a) + ByteLen(u, b)
    ensures forall c :: ByteLen(u, [c]) == u.width(c)
    decreases |b|
  {
    assert forall c: char :: [c][..0] == "";
    if b == "" {
      assert a + b == a;
    } else {
      var n := |b| - 1;
      assert (a + b)[..|a| + n] == a + b[..n];
      ByteLenIsSum(u, a, b[..n]);
    }
  }

  // ---- the words of a title ----

  /** A text cut at everything that is neither a letter, a digit nor a mark,
      the marks left out and the rest in lower case; parts may be empty. */
  function Parts(u: Unicode, text: string): (parts: seq<string>)
    ensures parts != []
  {
    if text == "" then [""]
    else
      var parts := Parts(u, text[1..]);
      if u.isMark(text[0]) then parts
      else if u.isAlphanumeric(text[0]) then [u.lower(text[0]) + parts[0]] + parts[1..]
      else [""] + parts
  }

  function NotEmpty(parts: seq<string>): seq<string> {
    if parts == [] then [] else (if parts[0] == "" then [] else [parts[0]]) + NotEmpty(parts[1..])
  }

  function Hyphenate(words: seq<string>): string
    decreases |words|, 0
  {
    if words == [] then "" else words[0] + Rest(words[1..])
  }

  /** What follows a word. */
  function Rest(words: seq<string>): string
    decreases |words|, 1
  {
    if words == [] then "" else "-" + Hyphenate(words)
  }

  /** A title's words, in lower case and joined by hyphens. */
  function WordsOf(u: Unicode, title: string): string {
    Hyphenate(NotEmpty(Parts(u, u.decompose(title))))
  }

  /** What comes of a text whose first part may go on with the last word. */
  function GoingOn(out: string, pending: bool, parts: seq<string>): string
    requires parts != []
  {
    if out == "" then Hyphenate(NotEmpty(parts))
    else if pending then out + Rest(NotEmpty(parts))
    else out + parts[0] + Rest(NotEmpty(parts[1..]))
  }

  lemma FirstWordGoesOn(word: string, parts: seq<string>)
    requires word != "" && parts != []
    ensures Hyphenate(NotEmpty([word + parts[0]] + parts[1..])) == word + parts[0] + Rest(NotEmpty(parts[1..]))
  {
    var all := [word + parts[0]] + parts[1..];
    assert all[1..] == parts[1..];
    assert NotEmpty(all) == [word + parts[0]] + NotEmpty(parts[1..]);
    assert NotEmpty(all)[1..] == NotEmpty(parts[1..]);
  }

  lemma WordGoesOn(out: string, pending: bool, word: string, parts: seq<string>)
    requires word != "" && parts != []
    ensures GoingOn(out, pending, [word + parts[0]] + parts[1..]) ==
            GoingOn((if pending && out != "" then out + "-" else out) + word, false, parts)
  {
    var all, tail := [word + parts[0]] + parts[1..], Rest(NotEmpty(parts[1..]));
    FirstWordGoesOn(word, parts);
    assert all[0] == word + parts[0] && all[1..] == parts[1..];
    assert NotEmpty(all) == [word + parts[0]] + NotEmpty(parts[1..]);
    hide NotEmpty;
    hide Hyphenate;
    if out == "" {
      assert out + word == word;
    } else if pending {
      assert out + ("-" + (word + parts[0] + tail)) == out + "-" + word + parts[0] + tail;
    } else {
      assert out + (word + parts[0]) + tail == out + word + parts[0] + tail;
    }
  }

  lemma GapGoesOn(out: string, pending: bool, parts: seq<string>)
    requires parts != []
    ensures GoingOn(out, pending, [""] + parts) == GoingOn(out, true, parts)
  {
    var all := [""] + parts;
    assert all[0] == "" && all[1..] == parts && NotEmpty(all) == NotEmpty(parts);
    assert out + "" == out;
  }

  /** One character on, the loop's state stands for the same words. */
  lemma StepGoesOn(u: Unicode, text: string, out: string, pending: bool)
    requires Sane(u) && text != "" && !u.isMark(text[0])
    ensures GoingOn(out, pending, Parts(u, text)) ==
      if u.isAlphanumeric(text[0]) then
        GoingOn((if pending && out != "" then out + "-" else out) + u.lower(text[0]), false, Parts(u, text[1..]))
      else GoingOn(out, true, Parts(u, text[1..]))
  {
    hide GoingOn;
    if u.isAlphanumeric(text[0]) {
      WordGoesOn(out, pending, u.lower(text[0]), Parts(u, text[1..]));
    } else {
      GapGoesOn(out, pending, Parts(u, text[1..]));
    }
  }

  /** The words of a title, before the cut. */
  method Words(u: Unicode, title: string) returns (out: string)
    requires Sane(u)
    ensures out == WordsOf(u, title)
    ensures out != "" ==> Hyphenated(out)
    ensures out == "" <==> forall c | c in u.decompose(title) && !u.isMark(c) :: !u.isAlphanumeric(c)
  {
    hide Parts;
    hide GoingOn;
    var text := u.decompose(title);
    var pendingHyphen := false;
    out := "";
    assert text[0..] == text;
    StartsGoingOn(Parts(u, text));
    for i := 0 to |text|
      invariant GoingOn(out, pendingHyphen, Parts(u, text[i..])) == WordsOf(u, title)
      invariant out != "" ==> Hyphenated(out)
      invariant out == "" <==> forall c | c in text[..i] && !u.isMark(c) :: !u.isAlphanumeric(c)
    {
      var c := text[i];
      ghost var before := out;
      assert text[i..][0] == c && text[i..][1..] == text[i + 1..];
      assert text[..i + 1] == text[..i] + [c];
      if !u.isMark(c) {
        StepGoesOn(u, text[i..], out, pendingHyphen);
        if u.isAlphanumeric(c) {
          if pendingHyphen && out != "" {
            out := out + "-";
          }
          pendingHyphen := false;
          JoinWords(before, if out == before then "" else "-", u.lower(c));
          out := out + u.lower(c);
        } else {
          pendingHyphen := true;
        }
      } else {
        MarkIsPassed(u, text[i..]);
      }
    }
    assert text[..|text|] == text && text[|text|..] == "";
    EndsGoingOn(u, out, pendingHyphen);
  }

  lemma StartsGoingOn(parts: seq<string>)
    requires parts != []
    ensures GoingOn("", false, parts) == Hyphenate(NotEmpty(parts))
  {
  }

  lemma MarkIsPassed(u: Unicode, text: string)
    requires text != "" && u.isMark(text[0])
    ensures Parts(u, text) == Parts(u, text[1..])
  {
  }

  lemma EndsGoingOn(u: Unicode, out: string, pending: bool)
    ensures GoingOn(out, pending, Parts(u, "")) == out
  {
    assert NotEmpty([""]) == [] && [""][1..] == [];
  }

  /** The letters and digits of a text, in lower case, nothing between. */
  function Letters(u: Unicode, text: string): string {
    if text == "" then ""
    else (if !u.isMark(text[0]) && u.isAlphanumeric(text[0]) then u.lower(text[0]) else "") + Letters(u, text[1..])
  }

  function WithoutHyphens(s: string): string {
    if s == "" then "" else (if s[0] == '-' then "" else [s[0]]) + WithoutHyphens(s[1..])
  }

  lemma {:induction false} WithoutHyphensSplit(a: string, b: string)
    ensures WithoutHyphens(a + b) == WithoutHyphens(a) + WithoutHyphens(b)
    ensures '-' !in a ==> WithoutHyphens(a) == a
    decreases |a|
  {
    if a == "" {
      assert a + b == b;
    } else {
      assert (a + b)[1..] == a[1..] + b && a == [a[0]] + a[1..];
      WithoutHyphensSplit(a[1..], b);
    }
  }

  function Together(parts: seq<string>): string {
    if parts == [] then "" else parts[0] + Together(parts[1..])
  }

  lemma {:induction false} HyphenatedParts(parts: seq<string>)
    requires forall k | 0 <= k < |parts| :: '-' !in parts[k]
    ensures WithoutHyphens(Hyphenate(NotEmpty(parts))) == Together(parts)
    ensures WithoutHyphens(Rest(NotEmpty(parts))) == Together(parts)
  {
    if parts != [] {
      var first, rest := parts[0], NotEmpty(parts[1..]);
      HyphenatedParts(parts[1..]);
      WithoutHyphensSplit(first, Rest(rest));
      if first != "" {
        assert ([first] + rest)[1..] == rest;
        WithoutHyphensSplit("-", first + Rest(rest));
        assert WithoutHyphens("-") == "";
      } else {
        assert [] + rest == rest && "" + Together(parts[1..]) == Together(parts[1..]);
      }
    }
  }

  lemma {:induction false} PartsTogether(u: Unicode, text: string)
    requires Sane(u)
    ensures Together(Parts(u, text)) == Letters(u, text)
    ensures forall k | 0 <= k < |Parts(u, text)| :: '-' !in Parts(u, text)[k]
  {
    if text != "" {
      var parts := Parts(u, text[1..]);
      PartsTogether(u, text[1..]);
      if !u.isMark(text[0]) {
        if u.isAlphanumeric(text[0]) {
          var all := [u.lower(text[0]) + parts[0]] + parts[1..];
          assert all[1..] == parts[1..];
          var first := u.lower(text[0]);
          assert first + parts[0] + Together(parts[1..]) == first + (parts[0] + Together(parts[1..]));
        } else {
          assert ([""] + parts)[1..] == parts;
        }
      }
    }
  }

  /** But for the hyphens a title's words are its letters and digits, in
      lower case, all of them and in order. */
  lemma WordsSpellTheLetters(u: Unicode, title: string)
    requires Sane(u)
    ensures WithoutHyphens(WordsOf(u, title)) == Letters(u, u.decompose(title))
  {
    PartsTogether(u, u.decompose(title));
    HyphenatedParts(Parts(u, u.decompose(title)));
  }

  lemma JoinWords(a: string, hyphen: string, b: string)
    requires a != "" ==> Hyphenated(a)
    requires hyphen == "" || (hyphen == "-" && a != "")
    requires b != "" && '-' !in b
    ensures Hyphenated(a + hyphen + b)
  {
    var t, s := a + hyphen, a + hyphen + b;
    assert forall m | 0 <= m < |a| :: s[m] == t[m] == a[m];
    assert forall m | |t| <= m < |s| :: s[m] == b[m - |t|] && s[m] != '-';
    assert hyphen != "" ==> s[|a|] == '-' && |t| == |a| + 1;
    forall i | 0 <= i < |s| - 1 && s[i] == '-'
      ensures s[i + 1] != '-'
    {
      assert i < |t| && (i < |a| - 1 ==> a[i + 1] != '-');
    }
  }

  predicate Fits(u: Unicode, s: string) {
    ByteLen(u, s) <= 80
  }

  /** `out` is all of `s` that fits; where not all does, what comes before
      the last hyphen that fits, or, with none that does, as many characters
      as fit. */
  ghost predicate IsCut(u: Unicode, s: string, out: string) {
    && out <= s
    && if Fits(u, s) then out == s
       else
         && |out| < |s|
         && (|| (s[|out|] == '-' && Fits(u, s[..|out| + 1]))
             || ('-' !in out && Fits(u, out) && !Fits(u, s[..|out| + 1])))
         && (forall k | |out| < k < |s| && s[k] == '-' :: !Fits(u, s[..k + 1]))
  }

  lemma LaterDoesNotFit(u: Unicode, s: string, k: nat, m: nat)
    requires Sane(u) && k <= m <= |s| && !Fits(u, s[..k])
    ensures !Fits(u, s[..m])
  {
    ByteLenPrefix(u, s[..m], k);
    assert s[..m][..k] == s[..k];
  }

  lemma LaterIsNoCut(u: Unicode, s: string, a: string, b: string)
    requires Sane(u) && IsCut(u, s, a) && |a| < |b|
    ensures !IsCut(u, s, b)
  {
    if b <= s {
      assert s[..|b|] == b && s[|a|] == b[|a|];
      if !Fits(u, s[..|a| + 1]) {
        LaterDoesNotFit(u, s, |a| + 1, |b|);
        if |b| < |s| {
          LaterDoesNotFit(u, s, |a| + 1, |b| + 1);
        }
      }
    }
  }

  /** There is one such cut. */
  lemma OneCut(u: Unicode, s: string, a: string, b: string)
    requires Sane(u) && IsCut(u, s, a) && IsCut(u, s, b)
    ensures a == b
  {
    if |a| < |b| {
      LaterIsNoCut(u, s, a, b);
    } else if |b| < |a| {
      LaterIsNoCut(u, s, b, a);
    }
  }

  /** The first `k` characters fit and no more; the last hyphen among them,
      if there is any, is just before `cut`. */
  lemma CutThere(u: Unicode, s: string, k: nat, cut: nat)
    requires Sane(u) && Hyphenated(s) && 0 < k < |s| && Fits(u, s[..k]) && !Fits(u, s[..k + 1])
    requires cut <= k && '-' !in s[cut..k] && (cut > 0 ==> s[cut - 1] == '-')
    ensures var out := if cut > 0 then s[..cut - 1] else s[..k];
            IsCut(u, s, out) && Hyphenated(out) && Fits(u, out)
  {
    var end := if cut > 0 then cut - 1 else k;
    if Fits(u, s) {
      assert s[..|s|] == s;
      LaterDoesNotFit(u, s, k + 1, |s|);
    }
    if !Fits(u, s[..cut]) {
      LaterDoesNotFit(u, s, cut, k);
    }
    if !Fits(u, s[..end]) {
      LaterDoesNotFit(u, s, end, k);
    }
    assert forall m | cut <= m < k :: s[m] == s[cut..k][m - cut] != '-';
    forall m | end < m < |s| && s[m] == '-'
      ensures !Fits(u, s[..m + 1])
    {
      LaterDoesNotFit(u, s, k + 1, m + 1);
    }
    assert cut == 0 ==> s[..k] == s[cut..k];
  }

  /** The largest cut of at most the allowed bytes, back to the last hyphen
      within them where there is one. */
  method Cut(u: Unicode, s: string) returns (out: string)
    requires Sane(u) && Hyphenated(s)
    ensures Hyphenated(out) && IsCut(u, s, out) && Fits(u, out)
  {
    if ByteLen(u, s) <= MAX_SLUG_BYTES {
      return s;
    }
    var end: nat := MAX_SLUG_BYTES;
    assert ByteLen(u, s[..0]) == 0;
    assert IsBoundary(u, s, 0);
    while !IsBoundary(u, s, end)
      invariant end <= MAX_SLUG_BYTES
      invariant forall b | end < b <= MAX_SLUG_BYTES :: !IsBoundary(u, s, b)
      decreases end
    {
      end := end - 1;
    }
    var k :| 0 <= k <= |s| && ByteLen(u, s[..k]) == end;
    FirstCharFits(u, s, k);
    var cut := k;
    while cut > 0 && s[cut - 1] != '-'
      invariant 0 <= cut <= k && '-' !in s[cut..k]
    {
      cut := cut - 1;
      assert s[cut..k] == [s[cut]] + s[cut + 1..k];
    }
    CutThere(u, s, k, cut);
    out := if cut > 0 then s[..cut - 1] else s[..k];
  }

  /** The cut leaves something, and the next character would not fit. */
  lemma FirstCharFits(u: Unicode, s: string, k: nat)
    requires Sane(u) && s != "" && k <= |s| && ByteLen(u, s) > MAX_SLUG_BYTES
    requires ByteLen(u, s[..k]) <= MAX_SLUG_BYTES
    requires forall b | ByteLen(u, s[..k]) < b <= MAX_SLUG_BYTES :: !IsBoundary(u, s, b)
    ensures 0 < k < |s| && ByteLen(u, s[..k + 1]) > MAX_SLUG_BYTES
  {
    assert s[..|s|] == s && s[..0] == "" && s[..1][..0] == "";
    assert IsBoundary(u, s, ByteLen(u, s[..k + 1]));
    assert s[..k + 1][..k] == s[..k];
  }

  lemma TrimmedIsSame(s: string)
    requires s == "" || Hyphenated(s)
    ensures Trimmed(s) == s
  {
  }

  /** Every title's slug is its words joined by single hyphens, cut to at
      most 80 bytes as `IsCut` says; `untitled` stands for a title with no letter or digit. */
  method Slug(u: Unicode, title: string) returns (slug: string)
    requires Sane(u) && Fits(u, "untitled")
    ensures Hyphenated(slug) && Fits(u, slug)
    ensures (forall c | c in u.decompose(title) && !u.isMark(c) :: !u.isAlphanumeric(c)) ==> slug == "untitled"
    ensures WordsOf(u, title) != "" ==> IsCut(u, WordsOf(u, title), slug)
  {
    hide WordsOf;
    var out := Words(u, title);
    if out != "" && ByteLen(u, out) > MAX_SLUG_BYTES {
      out := Cut(u, out);
    }
    TrimmedIsSame(out);
    out := Trimmed(out);
    slug := if out == "" then "untitled" else out;
  }
}
