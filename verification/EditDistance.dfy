/** The two-row edit distance behind "a typo or two away". */
module EditDistance {

  function Min(x: nat, y: nat): nat {
    if x < y then x else y
  }

  function Min3(x: nat, y: nat, z: nat): nat {
    Min(Min(x, y), z)
  }

  function Cost(x: char, y: char): nat {
    if x == y then 0 else 1
  }

  /** Row `i`, column `j`: between the first `i` and the first `j` letters. */
  function D(a: string, b: string, i: nat, j: nat): nat
    requires i <= |a| && j <= |b|
    decreases i + j
  {
    if i == 0 then j
    else if j == 0 then i
    else Min3(D(a, b, i - 1, j) + 1, D(a, b, i, j - 1) + 1, D(a, b, i - 1, j - 1) + Cost(a[i - 1], b[j - 1]))
  }

  function Dist(a: string, b: string): nat {
    D(a, b, |a|, |b|)
  }

  /** A row holds the distances of one prefix of `a` to every prefix of
      `b`, as far as it is filled. */
  predicate RowFilled(row: seq<nat>, a: string, b: string, i: nat, n: nat)
    requires i <= |a| && n <= |b| + 1
  {
    |row| == n && forall y | 0 <= y < n :: row[y] == D(a, b, i, y)
  }

  method Distance(a: string, b: string) returns (d: nat)
    ensures d == Dist(a, b)
  {
    var prev: seq<nat> := [];
    for j := 0 to |b| + 1
      invariant RowFilled(prev, a, b, 0, j)
    {
      prev := prev + [j];
    }
    for i := 1 to |a| + 1
      invariant RowFilled(prev, a, b, i - 1, |b| + 1)
    {
      var cur: seq<nat> := [i];
      for j := 1 to |b| + 1
        invariant RowFilled(cur, a, b, i, j)
      {
        var least := Min3(prev[j] + 1, cur[j - 1] + 1, prev[j - 1] + Cost(a[i - 1], b[j - 1]));
        RowGrows(prev, cur, a, b, i, j, least);
        cur := cur + [least];
      }
      prev := cur;
    }
    d := prev[|b|];
  }

  lemma RowGrows(prev: seq<nat>, cur: seq<nat>, a: string, b: string, i: nat, j: nat, least: nat)
    requires 0 < i <= |a| && 0 < j <= |b|
    requires RowFilled(prev, a, b, i - 1, |b| + 1) && RowFilled(cur, a, b, i, j)
    requires least == Min3(prev[j] + 1, cur[j - 1] + 1, prev[j - 1] + Cost(a[i - 1], b[j - 1]))
    ensures RowFilled(cur + [least], a, b, i, j + 1)
  {
    assert prev[j] == D(a, b, i - 1, j) && prev[j - 1] == D(a, b, i - 1, j - 1) && cur[j - 1] == D(a, b, i, j - 1);
  }

  // ---- the metric laws ----

  lemma DStep(a: string, b: string, i: nat, j: nat)
    requires 0 < i <= |a| && 0 < j <= |b|
    ensures D(a, b, i, j) ==
            Min3(D(a, b, i - 1, j) + 1, D(a, b, i, j - 1) + 1, D(a, b, i - 1, j - 1) + Cost(a[i - 1], b[j - 1]))
  {
  }

  lemma SymmetricStep(a: string, b: string, i: nat, j: nat)
    requires 0 < i <= |a| && 0 < j <= |b|
    requires D(a, b, i - 1, j) == D(b, a, j, i - 1) && D(a, b, i, j - 1) == D(b, a, j - 1, i)
    requires D(a, b, i - 1, j - 1) == D(b, a, j - 1, i - 1)
    ensures D(a, b, i, j) == D(b, a, j, i)
  {
    hide D;
    DStep(a, b, i, j);
    DStep(b, a, j, i);
  }

  lemma {:induction false} Symmetric(a: string, b: string, i: nat, j: nat)
    requires i <= |a| && j <= |b|
    ensures D(a, b, i, j) == D(b, a, j, i)
    decreases i + j
  {
    hide D;
    if i == 0 || j == 0 {
      DEdge(a, b, i, j);
      DEdge(b, a, j, i);
    } else {
      Symmetric(a, b, i - 1, j);
      Symmetric(a, b, i, j - 1);
      Symmetric(a, b, i - 1, j - 1);
      SymmetricStep(a, b, i, j);
    }
  }

  lemma DEdge(a: string, b: string, i: nat, j: nat)
    requires i <= |a| && j <= |b| && (i == 0 || j == 0)
    ensures D(a, b, i, j) == i + j
  {
  }

  lemma {:induction false} ZeroIffEqual(a: string, b: string, i: nat, j: nat)
    requires i <= |a| && j <= |b|
    ensures D(a, b, i, j) == 0 <==> a[..i] == b[..j]
    decreases i + j
  {
    if i > 0 && j > 0 {
      ZeroIffEqual(a, b, i - 1, j - 1);
      assert a[..i] == a[..i - 1] + [a[i - 1]] && b[..j] == b[..j - 1] + [b[j - 1]];
      if a[..i] == b[..j] {
        assert a[..i][i - 1] == b[..j][j - 1];
        assert a[..i - 1] == a[..i][..i - 1] && b[..j - 1] == b[..j][..j - 1];
      }
    }
  }

  /** A row or a column more costs at most one. */
  lemma {:induction false} Neighbours(a: string, b: string, i: nat, j: nat)
    requires i <= |a| && j <= |b|
    ensures i > 0 ==> D(a, b, i, j) <= D(a, b, i - 1, j) + 1
    ensures j > 0 ==> D(a, b, i, j) <= D(a, b, i, j - 1) + 1
    ensures i > 0 && j > 0 ==> D(a, b, i, j) <= D(a, b, i - 1, j - 1) + Cost(a[i - 1], b[j - 1])
    decreases i + j
  {
    if i == 0 && j > 0 {
      Neighbours(a, b, i, j - 1);
    } else if j == 0 && i > 0 {
      Neighbours(a, b, i - 1, j);
    }
  }

  lemma {:induction false} LengthGap(a: string, b: string, i: nat, j: nat)
    requires i <= |a| && j <= |b|
    ensures j - i <= D(a, b, i, j) && i - j <= D(a, b, i, j)
    decreases i + j
  {
    if i > 0 && j > 0 {
      LengthGap(a, b, i - 1, j);
      LengthGap(a, b, i, j - 1);
      LengthGap(a, b, i - 1, j - 1);
    }
  }

  lemma {:induction false} Triangle(a: string, b: string, c: string, i: nat, j: nat, k: nat)
    requires i <= |a| && j <= |b| && k <= |c|
    ensures D(a, c, i, k) <= D(a, b, i, j) + D(b, c, j, k)
    decreases i + j + k, 1
  {
    Neighbours(a, c, i, k);
    if i == 0 {
      LengthGap(b, c, j, k);
    } else if k == 0 {
      LengthGap(a, b, i, j);
    } else if j == 0 || D(a, b, i, j) == D(a, b, i - 1, j) + 1 {
      Triangle(a, b, c, i - 1, j, k);
    } else if D(b, c, j, k) == D(b, c, j, k - 1) + 1 {
      Triangle(a, b, c, i, j, k - 1);
    } else {
      TriangleThroughB(a, b, c, i, j, k);
    }
  }

  /** Both sides use the letter of the middle string. */
  lemma {:induction false} TriangleThroughB(a: string, b: string, c: string, i: nat, j: nat, k: nat)
    requires 0 < i <= |a| && 0 < j <= |b| && 0 < k <= |c|
    requires D(a, b, i, j) != D(a, b, i - 1, j) + 1 && D(b, c, j, k) != D(b, c, j, k - 1) + 1
    ensures D(a, c, i, k) <= D(a, b, i, j) + D(b, c, j, k)
    decreases i + j + k, 0
  {
    hide D;
    DStep(a, b, i, j);
    DStep(b, c, j, k);
    Neighbours(a, c, i, k);
    var inserted := D(a, b, i, j) == D(a, b, i, j - 1) + 1;
    var deleted := D(b, c, j, k) == D(b, c, j - 1, k) + 1;
    if inserted && deleted {
      Triangle(a, b, c, i, j - 1, k);
    } else if inserted {
      Triangle(a, b, c, i, j - 1, k - 1);
    } else if deleted {
      Triangle(a, b, c, i - 1, j - 1, k);
    } else {
      Triangle(a, b, c, i - 1, j - 1, k - 1);
    }
  }

  // ---- the least number of single edits ----

  /** `t` is `s` with one letter put in. */
  predicate Inserts(s: string, t: string) {
    exists k | 0 <= k < |t| :: t[..k] + t[k + 1..] == s
  }

  /** `t` is `s` with one letter replaced. */
  predicate Substitutes(s: string, t: string) {
    |s| == |t| && exists k | 0 <= k < |t| :: t == s[k := t[k]]
  }

  predicate OneEdit(s: string, t: string) {
    Inserts(s, t) || Inserts(t, s) || Substitutes(s, t)
  }

  /** A string a step, each one edit from the last. */
  predicate Path(p: seq<string>, a: string, b: string) {
    |p| > 0 && p[0] == a && p[|p| - 1] == b && forall n | 0 <= n < |p| - 1 :: OneEdit(p[n], p[n + 1])
  }

  /** Equal letters after a point add no distance. */
  lemma {:induction false} CommonTail(s: string, t: string, i: nat, j: nat)
    requires i <= |s| && j <= |t| && s[i..] == t[j..]
    ensures Dist(s, t) <= D(s, t, i, j)
    decreases |s| - i
  {
    if i < |s| {
      assert s[i] == s[i..][0] == t[j..][0] == t[j];
      assert s[i + 1..] == s[i..][1..] == t[j..][1..] == t[j + 1..];
      CommonTail(s, t, i + 1, j + 1);
      Neighbours(s, t, i + 1, j + 1);
    } else {
      assert |t[j..]| == 0;
    }
  }

  lemma InsertIsOne(s: string, t: string)
    requires Inserts(s, t)
    ensures Dist(s, t) <= 1
  {
    var k :| 0 <= k < |t| && t[..k] + t[k + 1..] == s;
    assert s[..k] == t[..k] && s[k..] == t[k + 1..];
    ZeroIffEqual(s, t, k, k);
    Neighbours(s, t, k, k + 1);
    CommonTail(s, t, k, k + 1);
  }

  lemma SubstituteIsOne(s: string, t: string)
    requires Substitutes(s, t)
    ensures Dist(s, t) <= 1
  {
    var k :| 0 <= k < |t| && t == s[k := t[k]];
    assert s[..k] == t[..k] && s[k + 1..] == t[k + 1..];
    ZeroIffEqual(s, t, k, k);
    Neighbours(s, t, k + 1, k + 1);
    CommonTail(s, t, k + 1, k + 1);
  }

  lemma EditIsOne(s: string, t: string)
    requires OneEdit(s, t)
    ensures Dist(s, t) <= 1
  {
    if Inserts(s, t) {
      InsertIsOne(s, t);
    } else if Inserts(t, s) {
      InsertIsOne(t, s);
      Symmetric(s, t, |s|, |t|);
    } else {
      SubstituteIsOne(s, t);
    }
  }

  /** No path is shorter than the distance. */
  lemma {:induction false} PathIsNoShorter(p: seq<string>, a: string, b: string)
    requires Path(p, a, b)
    ensures Dist(a, b) <= |p| - 1
    decreases |p|
  {
    if |p| == 1 {
      ZeroIffEqual(a, b, |a|, |b|);
      assert a[..|a|] == a && b[..|b|] == b;
    } else {
      var q := p[..|p| - 1];
      var c := q[|q| - 1];
      PathIsNoShorter(q, a, c);
      assert OneEdit(p[|p| - 2], p[|p| - 1]);
      EditIsOne(c, b);
      Triangle(a, c, b, |a|, |c|, |b|);
    }
  }

  lemma AppendKeepsEdit(s: string, t: string, x: char)
    requires OneEdit(s, t)
    ensures OneEdit(s + [x], t + [x])
  {
    if Inserts(s, t) {
      AppendKeepsInsert(s, t, x);
    } else if Inserts(t, s) {
      AppendKeepsInsert(t, s, x);
    } else {
      var k :| 0 <= k < |t| && t == s[k := t[k]];
      assert t + [x] == (s + [x])[k := (t + [x])[k]];
    }
  }

  lemma AppendKeepsInsert(s: string, t: string, x: char)
    requires Inserts(s, t)
    ensures Inserts(s + [x], t + [x])
  {
    var k :| 0 <= k < |t| && t[..k] + t[k + 1..] == s;
    var u := t + [x];
    assert u[..k] + u[k + 1..] == s + [x];
  }

  function AppendAll(p: seq<string>, x: char): seq<string> {
    seq(|p|, n requires 0 <= n < |p| => p[n] + [x])
  }

  lemma AppendKeepsPath(p: seq<string>, a: string, b: string, x: char)
    requires Path(p, a, b)
    ensures Path(AppendAll(p, x), a + [x], b + [x])
  {
    var q := AppendAll(p, x);
    forall n | 0 <= n < |q| - 1
      ensures OneEdit(q[n], q[n + 1])
    {
      AppendKeepsEdit(p[n], p[n + 1], x);
    }
  }

  lemma PathSnoc(p: seq<string>, a: string, b: string, c: string)
    requires Path(p, a, b) && OneEdit(b, c)
    ensures Path(p + [c], a, c)
  {
    var q := p + [c];
    forall n | 0 <= n < |q| - 1
      ensures OneEdit(q[n], q[n + 1])
    {
      if n < |p| - 1 {
        assert OneEdit(p[n], p[n + 1]);
      }
    }
  }

  lemma PathCons(p: seq<string>, a: string, b: string, c: string)
    requires OneEdit(a, b) && Path(p, b, c)
    ensures Path([a] + p, a, c)
  {
    var q := [a] + p;
    forall n | 0 <= n < |q| - 1
      ensures OneEdit(q[n], q[n + 1])
    {
      if n > 0 {
        assert OneEdit(p[n - 1], p[n]);
      }
    }
  }

  lemma LastIn(s: string)
    requires s != ""
    ensures Inserts(s[..|s| - 1], s)
  {
    assert s[..|s| - 1] + s[|s| - 1 + 1..] == s[..|s| - 1];
  }

  /** The last letters meet: as they are, or by a substitution. */
  lemma PathMeets(q: seq<string>, a: string, b: string, x: char, y: char) returns (p: seq<string>)
    requires Path(q, a, b)
    ensures Path(p, a + [x], b + [y]) && |p| == |q| + Cost(x, y)
  {
    AppendKeepsPath(q, a, b, x);
    p := AppendAll(q, x);
    if x != y {
      var t, u := b + [x], b + [y];
      assert u == t[|b| := u[|b|]];
      PathSnoc(p, a + [x], t, u);
      p := p + [u];
    }
  }

  lemma PrefixSnoc(s: string, i: nat)
    requires 0 < i <= |s|
    ensures s[..i] == s[..i - 1] + [s[i - 1]]
    ensures OneEdit(s[..i - 1], s[..i]) && OneEdit(s[..i], s[..i - 1])
  {
    LastIn(s[..i]);
    assert s[..i][..i - 1] == s[..i - 1];
  }

  /** A path of exactly the distance. */
  lemma {:induction false} ShortestPath(a: string, b: string, i: nat, j: nat) returns (p: seq<string>)
    requires i <= |a| && j <= |b|
    ensures Path(p, a[..i], b[..j]) && |p| - 1 == D(a, b, i, j)
    decreases i + j
  {
    if i == 0 && j == 0 {
      p := [""];
    } else if i > 0 && (j == 0 || D(a, b, i, j) == D(a, b, i - 1, j) + 1) {
      var q := ShortestPath(a, b, i - 1, j);
      PrefixSnoc(a, i);
      PathCons(q, a[..i], a[..i - 1], b[..j]);
      p := [a[..i]] + q;
    } else if j > 0 && (i == 0 || D(a, b, i, j) == D(a, b, i, j - 1) + 1) {
      var q := ShortestPath(a, b, i, j - 1);
      PrefixSnoc(b, j);
      PathSnoc(q, a[..i], b[..j - 1], b[..j]);
      p := q + [b[..j]];
    } else {
      var q := ShortestPath(a, b, i - 1, j - 1);
      PrefixSnoc(a, i);
      PrefixSnoc(b, j);
      p := PathMeets(q, a[..i - 1], b[..j - 1], a[i - 1], b[j - 1]);
    }
  }

  /** The distance is the least number of single-letter insertions,
      deletions and substitutions that turn one string into the other. */
  lemma DistanceIsLeast(a: string, b: string)
    ensures exists p :: Path(p, a, b) && |p| - 1 == Dist(a, b)
    ensures forall p | Path(p, a, b) :: Dist(a, b) <= |p| - 1
  {
    var p := ShortestPath(a, b, |a|, |b|);
    assert a[..|a|] == a && b[..|b|] == b;
    forall p | Path(p, a, b)
      ensures Dist(a, b) <= |p| - 1
    {
      PathIsNoShorter(p, a, b);
    }
  }

  lemma DistanceIsMetric(a: string, b: string, c: string)
    ensures Dist(a, b) == Dist(b, a)
    ensures Dist(a, b) == 0 <==> a == b
    ensures Dist(a, c) <= Dist(a, b) + Dist(b, c)
  {
    Symmetric(a, b, |a|, |b|);
    ZeroIffEqual(a, b, |a|, |b|);
    assert a[..|a|] == a && b[..|b|] == b;
    Triangle(a, b, c, |a|, |b|, |c|);
  }

  /** Within this many edits. */
  ghost predicate Within(a: string, b: string, n: nat) {
    exists p :: Path(p, a, b) && |p| - 1 <= n
  }

  /** Both names already folded; `home` is the typed name saying "home". */
  method Corrects(a: string, b: string, home: bool) returns (ok: bool)
    ensures ok <==>
      && a != "" && !home
      && (a == b
          || (|a| >= 3 && (a <= b || b <= a))
          || Within(a, b, if |a| >= 6 && |b| >= 6 then 2 else 1))
  {
    if a == "" || home {
      return false;
    }
    if a == b {
      return true;
    }
    if |a| >= 3 && (a <= b || b <= a) {
      return true;
    }
    var d := Distance(a, b);
    DistanceIsLeast(a, b);
    ok := d <= if Min(|a|, |b|) >= 6 then 2 else 1;
  }
}
