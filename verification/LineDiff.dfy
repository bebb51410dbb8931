/** The line diff of two lexicon schemas: a longest-common-subsequence
    table, then a walk through it that prints one marked line a step. */
module LineDiff {

  datatype Edit = Same(line: string) | Added(line: string) | Removed(line: string)

  // ---- what a diff means ----

  /** The old text: the lines not added. */
  function OldLines(edits: seq<Edit>): seq<string> {
    if edits == [] then []
    else if edits[0].Added? then OldLines(edits[1..])
    else [edits[0].line] + OldLines(edits[1..])
  }

  /** The new text: the lines not removed. */
  function NewLines(edits: seq<Edit>): seq<string> {
    if edits == [] then []
    else if edits[0].Removed? then NewLines(edits[1..])
    else [edits[0].line] + NewLines(edits[1..])
  }

  function Kept(edits: seq<Edit>): seq<string> {
    if edits == [] then []
    else if edits[0].Same? then [edits[0].line] + Kept(edits[1..])
    else Kept(edits[1..])
  }

  /** How many lines are marked as changed. */
  function Changes(edits: seq<Edit>): nat {
    if edits == [] then 0 else (if edits[0].Same? then 0 else 1) + Changes(edits[1..])
  }

  /** `s` can be had from `a` by leaving lines out. */
  predicate Subsequence(s: seq<string>, a: seq<string>) {
    s == [] || (a != [] && ((s[0] == a[0] && Subsequence(s[1..], a[1..])) || Subsequence(s, a[1..])))
  }

  // ---- the table's recurrence and the walk ----

  function Max(x: nat, y: nat): nat {
    if x < y then y else x
  }

  /** The table's entry for the lines from `i` and from `j` on. */
  function Lcs(a: seq<string>, b: seq<string>, i: nat, j: nat): nat
    requires i <= |a| && j <= |b|
    decreases |a| - i + |b| - j
  {
    if i == |a| || j == |b| then 0
    else if a[i] == b[j] then Lcs(a, b, i + 1, j + 1) + 1
    else Max(Lcs(a, b, i + 1, j), Lcs(a, b, i, j + 1))
  }

  /** What remains to print at `i` and `j`. */
  function Walk(a: seq<string>, b: seq<string>, i: nat, j: nat): seq<Edit>
    requires i <= |a| && j <= |b|
    decreases |a| - i + |b| - j
  {
    if i == |a| && j == |b| then []
    else if i < |a| && j < |b| && a[i] == b[j] then [Same(a[i])] + Walk(a, b, i + 1, j + 1)
    else if j < |b| && (i == |a| || Lcs(a, b, i, j + 1) >= Lcs(a, b, i + 1, j)) then
      [Added(b[j])] + Walk(a, b, i, j + 1)
    else [Removed(a[i])] + Walk(a, b, i + 1, j)
  }

  /** The whole diff. */
  function Edits(a: seq<string>, b: seq<string>): seq<Edit> {
    Walk(a, b, 0, 0)
  }

  // ---- the printed form ----

  function Mark(e: Edit): string {
    match e
    case Same(_) => "  "
    case Added(_) => "+ "
    case Removed(_) => "- "
  }

  function Render(edits: seq<Edit>): string {
    if edits == [] then "" else Mark(edits[0]) + edits[0].line + "\n" + Render(edits[1..])
  }

  /** The length of a text's first line. */
  function LineEnd(text: string): (n: nat)
    ensures n <= |text|
  {
    if text == [] || text[0] == '\n' then 0 else 1 + LineEnd(text[1..])
  }

  /** A reader of diffs: what each line is marked as. */
  function Read(text: string): seq<Edit>
    decreases |text|
  {
    var n := LineEnd(text);
    if n == |text| then []
    else
      var line, rest := text[..n], text[n + 1..];
      (if "  " <= line then [Same(line[2..])]
       else if "+ " <= line then [Added(line[2..])]
       else if "- " <= line then [Removed(line[2..])]
       else []) + Read(rest)
  }

  method Diff(a: seq<string>, b: seq<string>) returns (out: string)
    ensures out == Render(Edits(a, b))
  {
    var lcs := FillTable(a, b);
    out := PrintWalk(a, b, lcs);
  }

  method PrintWalk(a: seq<string>, b: seq<string>, lcs: array2<nat>) returns (out: string)
    requires lcs.Length0 == |a| + 1 && lcs.Length1 == |b| + 1
    requires forall i: nat | i <= |a| :: RowFilled(a, b, lcs, i, 0)
    ensures out == Render(Edits(a, b))
  {
    var i: nat, j: nat := 0, 0;
    out := "";
    ghost var done: seq<Edit> := [];
    while i < |a| || j < |b|
      invariant 0 <= i <= |a| && 0 <= j <= |b|
      invariant Edits(a, b) == done + Walk(a, b, i, j)
      invariant out == Render(done)
      decreases |a| - i + |b| - j
    {
      ghost var rest := Walk(a, b, i, j);
      assert RowFilled(a, b, lcs, i, 0);
      assert i < |a| ==> RowFilled(a, b, lcs, i + 1, 0);
      if i < |a| && j < |b| && a[i] == b[j] {
        PrintStep(done, rest, Same(a[i]), Walk(a, b, i + 1, j + 1));
        done := done + [Same(a[i])];
        out := out + "  " + a[i];
        i, j := i + 1, j + 1;
      } else if j < |b| && (i >= |a| || lcs[i, j + 1] >= lcs[i + 1, j]) {
        PrintStep(done, rest, Added(b[j]), Walk(a, b, i, j + 1));
        done := done + [Added(b[j])];
        out := out + "+ " + b[j];
        j := j + 1;
      } else {
        PrintStep(done, rest, Removed(a[i]), Walk(a, b, i + 1, j));
        done := done + [Removed(a[i])];
        out := out + "- " + a[i];
        i := i + 1;
      }
      out := out + "\n";
    }
    assert done + [] == done;
  }

  lemma PrintStep(done: seq<Edit>, rest: seq<Edit>, e: Edit, next: seq<Edit>)
    requires rest == [e] + next
    ensures done + rest == done + [e] + next
    ensures Render(done + [e]) == Render(done) + Mark(e) + e.line + "\n"
  {
    RenderSnoc(done, e);
  }

  ghost predicate RowFilled(a: seq<string>, b: seq<string>, lcs: array2<nat>, i: nat, from: nat)
    requires i <= |a| && lcs.Length0 == |a| + 1 && lcs.Length1 == |b| + 1
    reads lcs
  {
    forall j: nat | from <= j <= |b| :: lcs[i, j] == Lcs(a, b, i, j)
  }

  method FillTable(a: seq<string>, b: seq<string>) returns (lcs: array2<nat>)
    ensures fresh(lcs) && lcs.Length0 == |a| + 1 && lcs.Length1 == |b| + 1
    ensures forall i: nat | i <= |a| :: RowFilled(a, b, lcs, i, 0)
  {
    lcs := new nat[|a| + 1, |b| + 1]((_, _) => 0);
    var i: nat := |a|;
    while i > 0
      invariant i <= |a|
      invariant forall x: nat | i <= x <= |a| :: RowFilled(a, b, lcs, x, 0)
      invariant forall x | 0 <= x < i :: lcs[x, |b|] == 0
    {
      i := i - 1;
      label Before:
      FillRow(a, b, lcs, i);
      forall x: nat | i < x <= |a|
        ensures RowFilled(a, b, lcs, x, 0)
      {
        assert old@Before(RowFilled(a, b, lcs, x, 0));
      }
    }
  }

  /** One row, last entry first, from the row below it. */
  method FillRow(a: seq<string>, b: seq<string>, lcs: array2<nat>, i: nat)
    requires i < |a| && lcs.Length0 == |a| + 1 && lcs.Length1 == |b| + 1
    requires RowFilled(a, b, lcs, i + 1, 0) && lcs[i, |b|] == 0
    modifies lcs
    ensures RowFilled(a, b, lcs, i, 0)
    ensures forall x, y | 0 <= x <= |a| && 0 <= y <= |b| && x != i :: lcs[x, y] == old(lcs[x, y])
  {
    var j: nat := |b|;
    while j > 0
      invariant j <= |b|
      invariant RowFilled(a, b, lcs, i, j)
      invariant forall x, y | 0 <= x <= |a| && 0 <= y <= |b| && x != i :: lcs[x, y] == old(lcs[x, y])
    {
      j := j - 1;
      assert lcs[i + 1, j] == Lcs(a, b, i + 1, j) && lcs[i + 1, j + 1] == Lcs(a, b, i + 1, j + 1);
      lcs[i, j] := if a[i] == b[j] then lcs[i + 1, j + 1] + 1 else Max(lcs[i + 1, j], lcs[i, j + 1]);
    }
  }

  lemma {:induction false} RenderSnoc(edits: seq<Edit>, e: Edit)
    ensures Render(edits + [e]) == Render(edits) + (Mark(e) + e.line + "\n")
  {
    if edits == [] {
      assert edits + [e] == [e];
      assert Render([e]) == Mark(e) + e.line + "\n" + Render([]);
    } else {
      var first := Mark(edits[0]) + edits[0].line + "\n";
      RenderSnoc(edits[1..], e);
      assert (edits + [e])[1..] == edits[1..] + [e];
      assert Render(edits + [e]) == first + Render(edits[1..] + [e]);
      assert Render(edits) == first + Render(edits[1..]);
    }
  }

  // ---- correctness ----

  lemma EditSpells(e: Edit, rest: seq<Edit>)
    ensures var edits := [e] + rest;
            && OldLines(edits) == (if e.Added? then [] else [e.line]) + OldLines(rest)
            && NewLines(edits) == (if e.Removed? then [] else [e.line]) + NewLines(rest)
            && |Kept(edits)| == (if e.Same? then 1 else 0) + |Kept(rest)|
  {
    var edits := [e] + rest;
    assert edits[0] == e && edits[1..] == rest;
  }

  /** One step of the walk, and what it does to the table's entry. */
  lemma WalkStep(a: seq<string>, b: seq<string>, i: nat, j: nat) returns (e: Edit, x: nat, y: nat)
    requires i <= |a| && j <= |b| && i + j < |a| + |b|
    ensures x == (if e.Added? then i else i + 1) <= |a| && y == (if e.Removed? then j else j + 1) <= |b|
    ensures !e.Added? ==> e.line == a[i]
    ensures !e.Removed? ==> e.line == b[j]
    ensures Walk(a, b, i, j) == [e] + Walk(a, b, x, y)
    ensures Lcs(a, b, i, j) == Lcs(a, b, x, y) + if e.Same? then 1 else 0
  {
    if i < |a| && j < |b| && a[i] == b[j] {
      e, x, y := Same(a[i]), i + 1, j + 1;
    } else if j < |b| && (i == |a| || Lcs(a, b, i, j + 1) >= Lcs(a, b, i + 1, j)) {
      e, x, y := Added(b[j]), i, j + 1;
    } else {
      e, x, y := Removed(a[i]), i + 1, j;
    }
  }

  lemma TailStep(a: seq<string>, i: nat, x: nat, line: string)
    requires i <= x <= |a| && x <= i + 1 && (x == i + 1 ==> line == a[i])
    ensures a[i..] == (if x == i then [] else [line]) + a[x..]
  {
  }

  /** Unchanged and removed lines spell the old text, unchanged and added
      lines the new one, and the unchanged lines are as many as the table
      says. */
  lemma {:induction false} WalkSpellsBoth(a: seq<string>, b: seq<string>, i: nat, j: nat)
    requires i <= |a| && j <= |b|
    ensures OldLines(Walk(a, b, i, j)) == a[i..] && NewLines(Walk(a, b, i, j)) == b[j..]
    ensures |Kept(Walk(a, b, i, j))| == Lcs(a, b, i, j)
    decreases |a| - i + |b| - j
  {
    if i + j < |a| + |b| {
      hide *;
      var e, x, y := WalkStep(a, b, i, j);
      WalkSpellsBoth(a, b, x, y);
      EditSpells(e, Walk(a, b, x, y));
      TailStep(a, i, x, e.line);
      TailStep(b, j, y, e.line);
    } else {
      assert a[i..] == [] && b[j..] == [];
    }
  }

  // ---- optimality ----

  lemma {:induction false} SubsequenceTail(s: seq<string>, a: seq<string>)
    requires s != [] && Subsequence(s, a)
    ensures Subsequence(s[1..], a)
    ensures s[0] == a[0] ==> Subsequence(s[1..], a[1..])
    ensures s[0] != a[0] ==> Subsequence(s, a[1..])
    decreases a
  {
    if Subsequence(s, a[1..]) {
      SubsequenceTail(s, a[1..]);
    }
    assert Subsequence(s[1..], a[1..]);
  }

  /** No common subsequence is longer than the table says. */
  lemma {:induction false} LcsIsGreatest(s: seq<string>, a: seq<string>, b: seq<string>, i: nat, j: nat)
    requires i <= |a| && j <= |b|
    requires Subsequence(s, a[i..]) && Subsequence(s, b[j..])
    ensures |s| <= Lcs(a, b, i, j)
    decreases |a| - i + |b| - j
  {
    if s != [] {
      assert a[i..][1..] == a[i + 1..] && b[j..][1..] == b[j + 1..];
      SubsequenceTail(s, a[i..]);
      SubsequenceTail(s, b[j..]);
      if a[i] == b[j] {
        LcsIsGreatest(if s[0] == a[i] then s[1..] else s, a, b, i + 1, j + 1);
      } else if s[0] != a[i] {
        LcsIsGreatest(s, a, b, i + 1, j);
      } else {
        LcsIsGreatest(s, a, b, i, j + 1);
      }
    }
  }

  lemma {:induction false} SubsequenceMore(s: seq<string>, x: string, a: seq<string>)
    requires Subsequence(s, a)
    ensures Subsequence(s, [x] + a) && Subsequence([x] + s, [x] + a)
  {
    var xa, xs := [x] + a, [x] + s;
    assert xa[1..] == a && xs[1..] == s;
    assert Subsequence(s, xa[1..]) && Subsequence(xs[1..], xa[1..]);
  }

  /** Of any diff the unchanged lines are a common subsequence, and the
      changed ones are the rest of both texts. */
  lemma {:induction false} KeptIsCommon(edits: seq<Edit>)
    ensures Subsequence(Kept(edits), OldLines(edits)) && Subsequence(Kept(edits), NewLines(edits))
    ensures Changes(edits) + 2 * |Kept(edits)| == |OldLines(edits)| + |NewLines(edits)|
  {
    if edits != [] {
      KeptIsCommon(edits[1..]);
      var k, x := Kept(edits[1..]), edits[0].line;
      SubsequenceMore(k, x, OldLines(edits[1..]));
      SubsequenceMore(k, x, NewLines(edits[1..]));
    }
  }

  /** The printed diff spells both texts, keeps as many lines as any common
      subsequence has, and marks as few lines as any diff could. */
  lemma DiffIsOptimal(a: seq<string>, b: seq<string>)
    ensures OldLines(Edits(a, b)) == a && NewLines(Edits(a, b)) == b
    ensures Subsequence(Kept(Edits(a, b)), a) && Subsequence(Kept(Edits(a, b)), b)
    ensures forall s | Subsequence(s, a) && Subsequence(s, b) :: |s| <= |Kept(Edits(a, b))|
    ensures forall other | OldLines(other) == a && NewLines(other) == b :: Changes(Edits(a, b)) <= Changes(other)
  {
    assert a[0..] == a && b[0..] == b;
    WalkSpellsBoth(a, b, 0, 0);
    KeptIsCommon(Edits(a, b));
    forall s | Subsequence(s, a) && Subsequence(s, b)
      ensures |s| <= |Kept(Edits(a, b))|
    {
      LcsIsGreatest(s, a, b, 0, 0);
    }
    forall other | OldLines(other) == a && NewLines(other) == b
      ensures Changes(Edits(a, b)) <= Changes(other)
    {
      KeptIsCommon(other);
      LcsIsGreatest(Kept(other), a, b, 0, 0);
    }
  }

  /** Where the lines differ the new one goes first, if some longest common
      subsequence does without it. */
  lemma AddedGoesFirst(a: seq<string>, b: seq<string>, i: nat, j: nat)
    requires i < |a| && j < |b| && a[i] != b[j]
    ensures Walk(a, b, i, j) != []
    ensures Walk(a, b, i, j)[0] == (
      if exists s :: Subsequence(s, a[i..]) && Subsequence(s, b[j + 1..]) && |s| == Lcs(a, b, i, j) then Added(b[j])
      else Removed(a[i]))
  {
    var without := Walk(a, b, i, j + 1);
    WalkSpellsBoth(a, b, i, j + 1);
    KeptIsCommon(without);
    assert Subsequence(Kept(without), a[i..]) && Subsequence(Kept(without), b[j + 1..]);
    assert |Kept(without)| == Lcs(a, b, i, j + 1);
    if s :| Subsequence(s, a[i..]) && Subsequence(s, b[j + 1..]) && |s| == Lcs(a, b, i, j) {
      LcsIsGreatest(s, a, b, i, j + 1);
    }
  }

  // ---- the print says it all ----

  lemma {:induction false} LineEndAt(line: string, rest: string)
    requires '\n' !in line
    ensures LineEnd(line + "\n" + rest) == |line|
  {
    var text := line + "\n" + rest;
    if line != [] {
      assert text[0] == line[0] && text[1..] == line[1..] + "\n" + rest;
      LineEndAt(line[1..], rest);
    }
  }

  lemma ReadOne(e: Edit, rest: string)
    requires '\n' !in e.line
    ensures Read(Mark(e) + e.line + "\n" + rest) == [e] + Read(rest)
  {
    var line := Mark(e) + e.line;
    var text := line + "\n" + rest;
    LineEndAt(line, rest);
    assert text[..|line|] == line && text[|line| + 1..] == rest;
    assert line[2..] == e.line && line[..2] == Mark(e);
    assert line[1] == ' ' && line[0] == Mark(e)[0];
  }

  /** Lines hold no newline, so a reader gets every edit back. */
  lemma {:induction false} RenderReadsBack(edits: seq<Edit>)
    requires forall e | e in edits :: '\n' !in e.line
    ensures Read(Render(edits)) == edits
  {
    hide Read;
    if edits == [] {
      ReadNothing();
    } else {
      RenderReadsBack(edits[1..]);
      ReadOne(edits[0], Render(edits[1..]));
    }
  }

  lemma ReadNothing()
    ensures Read("") == []
  {
  }
}
