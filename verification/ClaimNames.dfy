/** What names are: which are read as what, which one is suggested, which
    are tried after it, and when a claim goes through. */
module ClaimNames {
  import opened Claims
  import opened Decimals
  import opened WhiteSpace
  import opened Wrappers

  const UPPER := "ABCDEFGHIJKLMNOPQRSTUVWXYZ"
  const LOWER := "abcdefghijklmnopqrstuvwxyz"
  const DIGITS := "0123456789"

  /** A DNS label: letters in lower case, digits and hyphens, none of them
      at an end, at most 63. */
  predicate DnsLabel(name: string) {
    && 1 <= |name| <= 63
    && (forall k | 0 <= k < |name| :: name[k] in LOWER || name[k] in DIGITS || name[k] == '-')
    && name[0] != '-' && name[|name| - 1] != '-'
  }

  lemma LetterIff(c: char)
    ensures LowerOrDigit(c) <==> c in LOWER || c in DIGITS
  {
  }

  lemma WellFormedIff(name: string)
    ensures WellFormed(name) <==> DnsLabel(name)
  {
    forall k | 0 <= k < |name|
      ensures LowerOrDigit(name[k]) <==> name[k] in LOWER || name[k] in DIGITS
    {
      LetterIff(name[k]);
    }
    if DnsLabel(name) {
      forall c | c in name
        ensures LowerOrDigit(c) || c == '-'
      {
        var k :| 0 <= k < |name| && name[k] == c;
      }
    }
    assert forall k | 0 <= k < |name| :: name[k] in name;
  }

  /** `d` is `c` in lower case. */
  predicate Lowered(c: char, d: char) {
    if c in UPPER then exists i | 0 <= i < 26 :: c == UPPER[i] && d == LOWER[i] else d == c
  }

  lemma LettersAt(i: nat)
    requires i < 26
    ensures UPPER[i] as int == 'A' as int + i && LOWER[i] as int == 'a' as int + i
  {
  }

  lemma UpperIff(c: char)
    ensures c in UPPER <==> 'A' <= c <= 'Z'
  {
  }

  lemma LowerIff(c: char, d: char)
    ensures Lowered(c, d) <==> Lower(c) == d
  {
    UpperIff(c);
    if c in UPPER {
      LettersAt(c as int - 'A' as int);
      if i :| 0 <= i < 26 && c == UPPER[i] && d == LOWER[i] {
        LettersAt(i);
      }
    }
  }

  // ---- reading a name ----

  /** A text that is this name but for case and the white space around. */
  ghost predicate Spells(raw: string, name: string) {
    exists before, core, after ::
      raw == before + core + after && AllSpace(before) && AllSpace(after) && SameButCase(core, name)
  }

  predicate SameButCase(core: string, name: string) {
    |core| == |name| && forall k | 0 <= k < |name| :: Lowered(core[k], name[k])
  }

  lemma SameButCaseIff(core: string, name: string)
    ensures SameButCase(core, name) <==> LowerAll(core) == name
  {
    if |core| == |name| {
      forall k | 0 <= k < |name|
        ensures Lowered(core[k], name[k]) <==> LowerAll(core)[k] == name[k]
      {
        LowerIff(core[k], name[k]);
      }
    }
  }

  lemma {:induction false} TrimStartIs(before: string, s: string, drop: char -> bool)
    requires (forall k | 0 <= k < |before| :: drop(before[k])) && (s == "" || !drop(s[0]))
    ensures TrimStart(before + s, drop) == s
  {
    if before == "" {
      assert before + s == s;
    } else {
      assert (before + s)[1..] == before[1..] + s;
      TrimStartIs(before[1..], s, drop);
    }
  }

  lemma {:induction false} TrimEndIs(s: string, after: string, drop: char -> bool)
    requires (forall k | 0 <= k < |after| :: drop(after[k])) && (s == "" || !drop(s[|s| - 1]))
    ensures TrimEnd(s + after, drop) == s
  {
    if after == "" {
      assert s + after == s;
    } else {
      var n := |after| - 1;
      assert (s + after)[..|s| + n] == s + after[..n];
      TrimEndIs(s, after[..n], drop);
    }
  }

  /** Trimming takes off what is to be dropped at both ends. */
  lemma TrimIs(before: string, s: string, after: string, drop: char -> bool)
    requires forall k | 0 <= k < |before| :: drop(before[k])
    requires forall k | 0 <= k < |after| :: drop(after[k])
    requires s != "" ==> !drop(s[0]) && !drop(s[|s| - 1])
    ensures Trim(before + s + after, drop) == s
  {
    if s == "" {
      assert before + s + after == (before + after) + "";
      TrimStartIs(before + after, "", drop);
    } else {
      assert before + s + after == before + (s + after);
      TrimStartIs(before, s + after, drop);
      TrimEndIs(s, after, drop);
    }
  }

  /** And nothing else: the rest stands between what was dropped. */
  lemma {:induction false} TrimLeaves(s: string, drop: char -> bool) returns (before: string, after: string)
    ensures s == before + Trim(s, drop) + after
    ensures forall k | 0 <= k < |before| :: drop(before[k])
    ensures forall k | 0 <= k < |after| :: drop(after[k])
  {
    before := TrimStartLeaves(s, drop);
    after := TrimEndLeaves(TrimStart(s, drop), drop);
    assert s == before + (Trim(s, drop) + after);
  }

  lemma {:induction false} TrimStartLeaves(s: string, drop: char -> bool) returns (before: string)
    ensures s == before + TrimStart(s, drop) && forall k | 0 <= k < |before| :: drop(before[k])
  {
    before := "";
    if s != "" && drop(s[0]) {
      var rest := TrimStartLeaves(s[1..], drop);
      before := [s[0]] + rest;
      assert s == [s[0]] + s[1..];
    }
  }

  lemma {:induction false} TrimEndLeaves(s: string, drop: char -> bool) returns (after: string)
    ensures s == TrimEnd(s, drop) + after && forall k | 0 <= k < |after| :: drop(after[k])
  {
    after := "";
    if s != "" && drop(s[|s| - 1]) {
      var rest := TrimEndLeaves(s[..|s| - 1], drop);
      after := rest + [s[|s| - 1]];
      assert s == s[..|s| - 1] + [s[|s| - 1]];
    }
  }

  /** A text is read as a name exactly when it is that name but for case and
      the white space around it, and the name is a label; a reserved one is
      refused as such. */
  lemma NameIsReadIff(raw: string, name: string)
    ensures ValidateName(raw) == Valid(name) <==> DnsLabel(name) && Spells(raw, name) && name !in RESERVED_NAMES
    ensures ValidateName(raw).Invalid? <==> !exists n :: DnsLabel(n) && Spells(raw, n)
  {
    var read := LowerAll(Trim(raw, IsSpace));
    var before, after := TrimLeaves(raw, IsSpace);
    AllSpaceIff(before);
    AllSpaceIff(after);
    SameButCaseIff(Trim(raw, IsSpace), read);
    assert Spells(raw, read);
    WellFormedIff(read);
    forall n | DnsLabel(n) && Spells(raw, n)
      ensures n == read
    {
      SpelledIsRead(raw, n);
    }
  }

  lemma SpelledIsRead(raw: string, name: string)
    requires DnsLabel(name) && Spells(raw, name)
    ensures LowerAll(Trim(raw, IsSpace)) == name
  {
    hide DnsLabel;
    hide SameButCase;
    hide IsSpace;
    hide LowerAll;
    var before, core, after :|
      raw == before + core + after && AllSpace(before) && AllSpace(after) && SameButCase(core, name);
    LabelEnds(core, name);
    AllSpaceIff(before);
    AllSpaceIff(after);
    TrimIs(before, core, after, IsSpace);
    SameButCaseIff(core, name);
  }

  lemma LabelEnds(core: string, name: string)
    requires DnsLabel(name) && SameButCase(core, name)
    ensures core != "" && !IsSpace(core[0]) && !IsSpace(core[|core| - 1])
  {
    hide IsSpace;
    hide Lowered;
    var last := |core| - 1;
    assert Lowered(core[0], name[0]) && Lowered(core[last], name[last]);
    assert name[0] in LOWER || name[0] in DIGITS;
    assert name[last] in LOWER || name[last] in DIGITS;
    LabelIsNoSpace(core[0], name[0]);
    LabelIsNoSpace(core[last], name[last]);
  }

  lemma LabelIsNoSpace(c: char, d: char)
    requires Lowered(c, d) && (d in LOWER || d in DIGITS)
    ensures !IsSpace(c)
  {
    LowerIff(c, d);
    LetterIff(d);
    hide Lowered;
  }

  // ---- the suggested name ----

  /** Each character in lower case where it is a letter or a digit, and a
      hyphen where not. */
  predicate Relabelled(part: string, name: string) {
    |part| == |name| &&
    forall k | 0 <= k < |part| ::
      if part[k] in UPPER || part[k] in LOWER || part[k] in DIGITS then Lowered(part[k], name[k])
      else name[k] == '-'
  }

  lemma RelabelIff(c: char, d: char)
    ensures Relabel(c) == d <==>
      (if c in UPPER || c in LOWER || c in DIGITS then Lowered(c, d) else d == '-')
  {
    LowerIff(c, d);
    UpperIff(c);
    LetterIff(Lower(c));
    LetterIff(c);
  }

  lemma RelabelAllIs(part: string, name: string)
    requires Relabelled(part, name)
    ensures RelabelAll(part) == name
  {
    hide Lowered;
    forall k | 0 <= k < |part|
      ensures RelabelAll(part)[k] == name[k]
    {
      RelabelIff(part[k], name[k]);
    }
  }

  lemma {:induction false} UpToIs(part: string, rest: string)
    requires '.' !in part && (rest == "" || rest[0] == '.')
    ensures UpTo(part + rest, '.') == part
  {
    if part == "" {
      assert part + rest == rest;
    } else {
      assert part[0] in part && (part + rest)[1..] == part[1..] + rest;
      assert forall c | c in part[1..] :: c in part;
      UpToIs(part[1..], rest);
    }
  }

  /** The first 63 characters of a text. */
  function First63(name: string): string {
    if |name| > 63 then name[..63] else name
  }

  predicate Hyphens(s: string) {
    forall k | 0 <= k < |s| :: s[k] == '-'
  }

  /** What is left of a label's first 63 characters without the hyphens at
      its ends. */
  predicate Core(name: string, before: string, core: string, after: string) {
    && First63(name) == before + core + after && Hyphens(before) && Hyphens(after)
    && (core != "" ==> core[0] != '-' && core[|core| - 1] != '-')
  }

  /** Of a handle the first label is suggested, as a label of this site:
      `author` when nothing of it can be used. */
  lemma SuggestedFromHandle(did: string, part: string, rest: string, name: string,
                            before: string, core: string, after: string)
    requires '.' !in part && (rest == "" || rest[0] == '.')
    requires Relabelled(part, name) && Core(name, before, core, after)
    ensures SuggestName(did, Some(part + rest)) == if core == "" then "author" else core
  {
    UpToIs(part, rest);
    RelabelAllIs(part, name);
    hide Relabelled;
    TrimIs(before, core, after, Hyphen);
    hide Trim;
  }

  function Dids(n: nat): string {
    if n == 0 then "" else "did:" + Dids(n - 1)
  }

  lemma {:induction false} DropsDids(n: nat, rest: string)
    requires !("did:" <= rest)
    ensures DropPrefixes(Dids(n) + rest, "did:") == rest
  {
    if n == 0 {
      assert Dids(0) + rest == rest;
    } else {
      assert (Dids(n) + rest)[4..] == Dids(n - 1) + rest;
      assert "did:" <= Dids(n) + rest;
      DropsDids(n - 1, rest);
    }
  }

  lemma NoDidLeft(way: string, id: string)
    requires ':' !in way && way != "did"
    ensures !("did:" <= way + ":" + id)
  {
    var s := way + ":" + id;
    assert s[|way|] == ':' && s[..|way|] == way;
    if |way| > 3 {
      assert s[3] == way[3] && way[3] in way;
    } else if |way| == 3 {
      assert s[..3] == way && "did:"[..3] == "did";
    }
  }

  lemma ColonsGo(way: string, id: string)
    requires ':' !in way && ':' !in id
    ensures NoColons(way + ":" + id) == way + "-" + id
  {
    var s := way + ":" + id;
    forall k | 0 <= k < |s|
      ensures NoColons(s)[k] == (way + "-" + id)[k]
    {
      if k < |way| {
        assert s[k] == way[k] && way[k] in way;
      } else if k > |way| {
        assert s[k] == id[k - |way| - 1] && id[k - |way| - 1] in id;
      }
    }
  }

  /** Without a handle it is the DID's method and what follows it. */
  lemma SuggestedFromDid(n: nat, way: string, id: string, name: string, before: string, core: string, after: string)
    requires ':' !in way && ':' !in id && way != "did"
    requires Relabelled(way + "-" + id, name) && Core(name, before, core, after)
    ensures SuggestName(Dids(n) + (way + ":" + id), None) == if core == "" then "author" else core
  {
    hide Relabelled;
    hide DropPrefixes;
    hide Trim;
    hide Dids;
    NoDidLeft(way, id);
    DropsDids(n, way + ":" + id);
    ColonsGo(way, id);
    RelabelAllIs(way + "-" + id, name);
    TrimIs(before, core, after, Hyphen);
  }

  // ---- the names tried after it ----

  function Shortened(s: string, room: nat): string {
    if |s| > room then s[..room] else s
  }

  /** From the second on: as much of the name as leaves room, without
      hyphens at its end, a hyphen and the number. */
  lemma NumberedIs(base: string, n: nat, core: string, after: string)
    requires 2 <= n <= 99 && Hyphens(after) && (core != "" ==> core[|core| - 1] != '-')
    requires core + after == Shortened(base, if n < 10 then 61 else 60)
    ensures Candidate(base, 1) == base && Candidate(base, n) == core + "-" + Decimal(n)
  {
    DecimalLength(n);
    TrimEndIs(core, after, Hyphen);
    assert core + ("-" + Decimal(n)) == core + "-" + Decimal(n);
  }

  lemma DecimalLength(n: nat)
    requires n < 100
    ensures |Decimal(n)| == if n < 10 then 1 else 2
  {
  }

  /** A numbered name ends with its number, just after its last hyphen. */
  lemma LastHyphen(base: string, n: nat)
    requires n >= 2
    ensures var s, d := Candidate(base, n), Decimal(n);
            |s| > |d| && s[|s| - |d| - 1] == '-' && s[|s| - |d|..] == d && '-' !in d
  {
    hide TrimEnd;
    hide Decimal;
    DecimalIsDigits(n);
    var suffix := "-" + Decimal(n);
    var stem := Candidate(base, n)[..|Candidate(base, n)| - |suffix|];
    assert Candidate(base, n) == stem + suffix;
  }

  /** A text has one last hyphen. */
  lemma OneLastHyphen(s: string, d: string, e: string)
    requires |s| > |d| && s[|s| - |d| - 1] == '-' && s[|s| - |d|..] == d && '-' !in d
    requires |s| > |e| && s[|s| - |e| - 1] == '-' && s[|s| - |e|..] == e && '-' !in e
    ensures d == e
  {
    assert forall k | |s| - |d| <= k < |s| :: s[k] == d[k - (|s| - |d|)] != '-';
    assert forall k | |s| - |e| <= k < |s| :: s[k] == e[k - (|s| - |e|)] != '-';
  }

  /** No two rounds from the second on try one name. */
  lemma NumberedDiffer(base: string, m: nat, n: nat)
    requires 2 <= m && 2 <= n && Candidate(base, m) == Candidate(base, n)
    ensures m == n
  {
    LastHyphen(base, m);
    LastHyphen(base, n);
    OneLastHyphen(Candidate(base, m), Decimal(m), Decimal(n));
    DecimalInjective(m, n);
  }

  // ---- when a claim goes through ----

  /** A claim goes through exactly when the text is read as a name, the
      database works, and the name is free or the publication's own. */
  lemma ClaimIff(t: Table, raw: string, uri: string, did: string, now: int, fault: Fault)
    ensures var (t', outcome) := ClaimStep(t, raw, uri, did, now, fault);
      && (outcome.Claimed? <==>
            exists name :: ValidateName(raw) == Valid(name) && fault.NoFault? && (name !in t || t[name].uri == uri))
      && (outcome.Taken? <==>
            exists name :: ValidateName(raw) == Valid(name) && !fault.AtSelect? && name in t && t[name].uri != uri)
      && (outcome.ReservedName? <==> ValidateName(raw).Reserved?)
      && (outcome.InvalidName? <==> ValidateName(raw).Invalid?)
      && (!outcome.Claimed? && !fault.AtInsert? ==> t' == t)
  {
    hide ValidateName;
    if ValidateName(raw).Valid? {
      assert ValidateName(raw) == Valid(ValidateName(raw).name);
    }
  }
}
