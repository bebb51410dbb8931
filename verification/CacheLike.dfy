/** `evict_prefix`: a prefix turned into a `LIKE … ESCAPE '\'` pattern. */
module CacheLike {

  predicate Special(c: char) {
    c == '%' || c == '_' || c == '\\'
  }

  function Escaped(s: string): string {
    if s == [] then [] else (if Special(s[0]) then ['\\', s[0]] else [s[0]]) + Escaped(s[1..])
  }

  /** SQLite's `LIKE` ignores the case of ASCII letters, and only of those. */
  function FoldChar(c: char): char {
    if 'A' <= c <= 'Z' then (c as int + 32) as char else c
  }

  predicate AsciiLetter(c: char) {
    'A' <= c <= 'Z' || 'a' <= c <= 'z'
  }

  /** The other case of a letter. */
  function Swapped(c: char): char
    requires AsciiLetter(c)
  {
    if 'A' <= c <= 'Z' then (c as int + 32) as char else (c as int - 32) as char
  }

  /** SQLite's pattern match: `%` any run, `_` one character, and the
      character after a backslash as itself. */
  predicate Like(pattern: string, text: string)
    decreases |pattern| + |text|
  {
    if pattern == [] then text == []
    else if pattern[0] == '%' then
      Like(pattern[1..], text) || (text != [] && Like(pattern, text[1..]))
    else if pattern[0] == '_' then text != [] && Like(pattern[1..], text[1..])
    else if pattern[0] == '\\' then
      |pattern| > 1 && text != [] && FoldChar(pattern[1]) == FoldChar(text[0]) && Like(pattern[2..], text[1..])
    else text != [] && FoldChar(pattern[0]) == FoldChar(text[0]) && Like(pattern[1..], text[1..])
  }

  predicate StartsWithFolded(text: string, prefix: string) {
    |prefix| <= |text| && forall i | 0 <= i < |prefix| :: FoldChar(prefix[i]) == FoldChar(text[i])
  }

  method EscapeLike(s: string) returns (out: string)
    ensures out == Escaped(s)
  {
    out := [];
    for i := 0 to |s|
      invariant out + Escaped(s[i..]) == Escaped(s)
    {
      ghost var before := out;
      if Special(s[i]) {
        out := out + ['\\'];
      }
      out := out + [s[i]];
      assert s[i..][0] == s[i] && s[i..][1..] == s[i + 1..];
      assert out == before + (if Special(s[i]) then ['\\', s[i]] else [s[i]]);
    }
  }

  lemma {:induction false} PercentMatchesAll(text: string)
    ensures Like("%", text)
    decreases text
  {
    if text != [] {
      PercentMatchesAll(text[1..]);
    }
  }

  /** The pattern `evict_prefix` builds matches exactly the keys that
      start with the prefix, up to ASCII case, whatever wildcards or
      backslashes the prefix holds. */
  lemma {:induction false} PatternIsPrefixTest(prefix: string, text: string)
    ensures Like(Escaped(prefix) + "%", text) <==> StartsWithFolded(text, prefix)
    decreases prefix
  {
    var pattern := Escaped(prefix) + "%";
    if prefix == [] {
      assert pattern == "%";
      PercentMatchesAll(text);
    } else {
      var rest := Escaped(prefix[1..]) + "%";
      assert pattern == (if Special(prefix[0]) then ['\\', prefix[0]] else [prefix[0]]) + rest;
      assert if Special(prefix[0]) then pattern[2..] == rest else pattern[1..] == rest;
      if text != [] {
        PatternIsPrefixTest(prefix[1..], text[1..]);
        assert StartsWithFolded(text, prefix) <==>
               FoldChar(prefix[0]) == FoldChar(text[0]) && StartsWithFolded(text[1..], prefix[1..]) by {
          if StartsWithFolded(text, prefix) {
            forall i | 0 <= i < |prefix[1..]|
              ensures FoldChar(prefix[1..][i]) == FoldChar(text[1..][i])
            {
              assert prefix[1..][i] == prefix[i + 1] && text[1..][i] == text[i + 1];
            }
          } else if FoldChar(prefix[0]) == FoldChar(text[0]) && StartsWithFolded(text[1..], prefix[1..]) {
            forall i | 0 <= i < |prefix|
              ensures FoldChar(prefix[i]) == FoldChar(text[i])
            {
              if i > 0 {
                assert prefix[1..][i - 1] == prefix[i] && text[1..][i - 1] == text[i];
              }
            }
          }
        }
      }
    }
  }

  predicate HasLetter(s: string) {
    exists i | 0 <= i < |s| :: AsciiLetter(s[i])
  }

  /** The key starts with exactly the prefix. */
  predicate StartsWith(text: string, prefix: string) {
    prefix <= text
  }

  predicate Matches(text: string, prefix: string) {
    Like(Escaped(prefix) + "%", text)
  }

  lemma OtherCaseAlsoMatches(prefix: string) returns (text: string)
    requires HasLetter(prefix)
    ensures Matches(text, prefix) && !StartsWith(text, prefix)
  {
    var i :| 0 <= i < |prefix| && AsciiLetter(prefix[i]);
    text := prefix[i := Swapped(prefix[i])];
    assert text[i] != prefix[i];
    PatternIsPrefixTest(prefix, text);
  }

  lemma NoLetterIsExact(prefix: string, text: string)
    requires !HasLetter(prefix)
    ensures Matches(text, prefix) <==> StartsWith(text, prefix)
  {
    PatternIsPrefixTest(prefix, text);
    if StartsWithFolded(text, prefix) {
      forall i | 0 <= i < |prefix|
        ensures prefix[i] == text[i]
      {
        assert FoldChar(prefix[i]) == FoldChar(text[i]) && !AsciiLetter(prefix[i]);
      }
    }
  }

  /** The documented "whose key starts with `prefix`" is met for every key
      exactly when the prefix holds no ASCII letter; with one, a key that
      spells it in the other case is forgotten too. */
  lemma EvictsExactlyThePrefixIff(prefix: string)
    ensures (forall text: string :: Matches(text, prefix) <==> StartsWith(text, prefix)) <==> !HasLetter(prefix)
  {
    if HasLetter(prefix) {
      var text := OtherCaseAlsoMatches(prefix);
      assert Matches(text, prefix) != StartsWith(text, prefix);
    } else {
      forall text: string
        ensures Matches(text, prefix) <==> StartsWith(text, prefix)
      {
        NoLetterIsExact(prefix, text);
      }
    }
  }
}
