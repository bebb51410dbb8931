/** A Bluesky comment thread flattened into the list of replies shown. */
module Threads {
  import CleanText
  import WhiteSpace
  import opened Wrappers

  const MAX_COMMENTS: nat := 100
  const MAX_DEPTH: nat := 255

  datatype Reply = Reply(
    uri: string,
    did: string,
    handle: string,
    displayName: Option<string>,
    text: string,
    createdAt: string)

  /** A node of the thread as read: a post with its labels and its author's,
      or one that is not found, blocked, or of an unknown kind. */
  datatype Node =
    | Post(reply: Reply, labels: seq<string>, authorLabels: seq<string>, replies: seq<Node>)
    | Absent

  datatype Comment = Comment(reply: Reply, depth: nat)

  datatype Thread = Thread(comments: seq<Comment>, truncated: bool)

  predicate IsHidden(node: Node)
    requires node.Post?
  {
    exists l | l in node.labels + node.authorLabels :: l == "!hide" || l == "!takedown"
  }

  /** The filter before the sort. */
  predicate IsShown(node: Node) {
    node.Post? && !IsHidden(node)
  }

  // ---- the stable sort by creation time ----

  predicate AtMost(s: string, t: string) {
    s == "" || (t != "" && (s[0] < t[0] || (s[0] == t[0] && AtMost(s[1..], t[1..]))))
  }

  /** Before the first that is not earlier. */
  function Insert<T>(x: T, xs: seq<T>, time: T -> string): seq<T> {
    if xs == [] || AtMost(time(x), time(xs[0])) then [x] + xs else [xs[0]] + Insert(x, xs[1..], time)
  }

  function Sort<T>(xs: seq<T>, time: T -> string): seq<T> {
    if xs == [] then [] else Insert(xs[0], Sort(xs[1..], time), time)
  }

  predicate Sorted<T>(xs: seq<T>, time: T -> string) {
    forall i, j | 0 <= i < j < |xs| :: AtMost(time(xs[i]), time(xs[j]))
  }

  /** Those of one time, in order. */
  function Of<T>(xs: seq<T>, time: T -> string, t: string): seq<T> {
    if xs == [] then [] else if time(xs[0]) == t then [xs[0]] + Of(xs[1..], time, t) else Of(xs[1..], time, t)
  }

  lemma {:induction false} AtMostTotal(s: string, t: string)
    ensures AtMost(s, t) || AtMost(t, s)
    ensures AtMost(s, t) && AtMost(t, s) ==> s == t
  {
    if s != "" && t != "" {
      AtMostTotal(s[1..], t[1..]);
      assert s == [s[0]] + s[1..] && t == [t[0]] + t[1..];
    }
  }

  lemma {:induction false} AtMostTransitive(s: string, t: string, u: string)
    requires AtMost(s, t) && AtMost(t, u)
    ensures AtMost(s, u)
  {
    if s != "" && s[0] == t[0] && t[0] == u[0] {
      AtMostTransitive(s[1..], t[1..], u[1..]);
    }
  }

  lemma {:induction false} InsertKeepsAll<T>(x: T, xs: seq<T>, time: T -> string)
    ensures multiset(Insert(x, xs, time)) == multiset{x} + multiset(xs)
    ensures forall y | y in Insert(x, xs, time) :: y == x || y in xs
  {
    hide AtMost;
    if xs != [] {
      InsertKeepsAll(x, xs[1..], time);
      assert xs == [xs[0]] + xs[1..];
    }
  }

  lemma {:induction false} InsertIsSorted<T>(x: T, xs: seq<T>, time: T -> string)
    requires Sorted(xs, time)
    ensures Sorted(Insert(x, xs, time), time)
    ensures multiset(Insert(x, xs, time)) == multiset{x} + multiset(xs)
  {
    InsertKeepsAll(x, xs, time);
    hide AtMost;
    if xs != [] {
      AtMostTotal(time(x), time(xs[0]));
      if AtMost(time(x), time(xs[0])) {
        forall j | 0 <= j < |xs|
          ensures AtMost(time(x), time(xs[j]))
        {
          if j > 0 {
            AtMostTransitive(time(x), time(xs[0]), time(xs[j]));
          }
        }
      } else {
        var rest := Insert(x, xs[1..], time);
        InsertIsSorted(x, xs[1..], time);
        InsertKeepsAll(x, xs[1..], time);
        forall y | y in rest
          ensures AtMost(time(xs[0]), time(y))
        {
          if y != x {
            var j :| 1 <= j < |xs| && xs[j] == y;
          }
        }
      }
    }
  }

  lemma {:induction false} InsertIsStable<T>(x: T, xs: seq<T>, time: T -> string, t: string)
    ensures Of(Insert(x, xs, time), time, t) == if time(x) == t then [x] + Of(xs, time, t) else Of(xs, time, t)
  {
    if xs != [] && !AtMost(time(x), time(xs[0])) {
      AtMostTotal(time(x), time(x));
      InsertIsStable(x, xs[1..], time, t);
    }
  }

  /** Oldest first, each once, and replies of one time as they came. */
  lemma {:induction false} SortIsStable<T>(xs: seq<T>, time: T -> string)
    ensures Sorted(Sort(xs, time), time)
    ensures multiset(Sort(xs, time)) == multiset(xs)
    ensures forall t :: Of(Sort(xs, time), time, t) == Of(xs, time, t)
  {
    if xs != [] {
      SortIsStable(xs[1..], time);
      InsertIsSorted(xs[0], Sort(xs[1..], time), time);
      assert xs == [xs[0]] + xs[1..];
      forall t
        ensures Of(Sort(xs, time), time, t) == Of(xs, time, t)
      {
        InsertIsStable(xs[0], Sort(xs[1..], time), time, t);
      }
    }
  }

  // ---- the visible forest ----

  /** A display name trimmed; one with nothing left is none. */
  function NameShown(name: Option<string>): Option<string> {
    match name
    case None => None
    case Some(raw) =>
      var trimmed := CleanText.TrimEnd(CleanText.TrimStart(raw));
      if trimmed == "" then None else Some(trimmed)
  }

  /** A reply as it is shown: the name trimmed, the text cleaned. */
  function Presented(r: Reply): Reply {
    r.(displayName := NameShown(r.displayName), text := CleanText.Clean(r.text))
  }

  datatype Tree = Tree(reply: Reply, kids: seq<Tree>)

  const CREATED: Tree -> string := (t: Tree) => t.reply.createdAt

  /** The shown posts of a level, unsorted, each with its sorted replies. */
  function Trees(nodes: seq<Node>): seq<Tree>
    decreases nodes, 0
  {
    if nodes == [] then []
    else if IsShown(nodes[0]) then [Tree(Presented(nodes[0].reply), Forest(nodes[0].replies))] + Trees(nodes[1..])
    else Trees(nodes[1..])
  }

  function Forest(nodes: seq<Node>): seq<Tree>
    decreases nodes, 1
  {
    Sort(Trees(nodes), CREATED)
  }

  function Deeper(depth: nat): nat {
    if depth < MAX_DEPTH then depth + 1 else MAX_DEPTH
  }

  /** Each reply before the replies to it, with its nesting. */
  function Flat(forest: seq<Tree>, depth: nat): seq<Comment> {
    if forest == [] then []
    else [Comment(forest[0].reply, depth)] + Flat(forest[0].kids, Deeper(depth)) + Flat(forest[1..], depth)
  }

  function Flatten(replies: seq<Node>): Thread {
    var all := Flat(Forest(replies), 0);
    Thread(if |all| > MAX_COMMENTS then all[..MAX_COMMENTS] else all, |all| > MAX_COMMENTS)
  }

  // ---- collecting into a list ----

  class CommentList {
    var items: seq<Comment>

    constructor ()
      ensures items == []
    {
      items := [];
    }
  }

  function Posted(node: Node): string {
    if node.Post? then node.reply.createdAt else ""
  }

  function Shown(nodes: seq<Node>): (posts: seq<Node>)
    ensures forall p | p in posts :: p in nodes && IsShown(p)
  {
    if nodes == [] then []
    else if IsShown(nodes[0]) then [nodes[0]] + Shown(nodes[1..])
    else Shown(nodes[1..])
  }

  function TreesOf(posts: seq<Node>): seq<Tree>
    requires forall p | p in posts :: p.Post?
  {
    if posts == [] then [] else [Tree(Presented(posts[0].reply), Forest(posts[0].replies))] + TreesOf(posts[1..])
  }

  lemma {:induction false} TreesOfShown(nodes: seq<Node>)
    ensures TreesOf(Shown(nodes)) == Trees(nodes)
  {
    if nodes != [] {
      TreesOfShown(nodes[1..]);
      assert IsShown(nodes[0]) ==> Shown(nodes)[1..] == Shown(nodes[1..]);
    }
  }

  lemma SortKeeps<T>(xs: seq<T>, time: T -> string)
    ensures forall x :: x in Sort(xs, time) <==> x in xs
  {
    SortIsStable(xs, time);
    forall x
      ensures x in Sort(xs, time) <==> x in xs
    {
      assert x in multiset(Sort(xs, time)) <==> x in multiset(xs);
    }
  }

  lemma {:induction false} InsertThenTree(p: Node, posts: seq<Node>)
    requires p.Post? && forall q | q in posts :: q.Post?
    ensures forall q | q in Insert(p, posts, Posted) :: q.Post?
    ensures TreesOf(Insert(p, posts, Posted)) ==
            Insert(Tree(Presented(p.reply), Forest(p.replies)), TreesOf(posts), CREATED)
  {
    if posts != [] && !AtMost(Posted(p), Posted(posts[0])) {
      InsertThenTree(p, posts[1..]);
    } else {
      assert ([p] + posts)[1..] == posts;
    }
  }

  /** Sorting the posts and then reading their replies is the same as
      sorting the trees they make. */
  lemma {:induction false} SortThenTree(posts: seq<Node>)
    requires forall p | p in posts :: p.Post?
    ensures forall p | p in Sort(posts, Posted) :: p.Post?
    ensures TreesOf(Sort(posts, Posted)) == Sort(TreesOf(posts), CREATED)
  {
    if posts != [] {
      SortThenTree(posts[1..]);
      InsertThenTree(posts[0], Sort(posts[1..], Posted));
    }
  }

  lemma {:induction false} FlatSnoc(forest: seq<Tree>, t: Tree, depth: nat)
    ensures Flat(forest + [t], depth) == Flat(forest, depth) + ([Comment(t.reply, depth)] + Flat(t.kids, Deeper(depth)))
  {
    if forest == [] {
      assert forest + [t] == [t] && Flat([t][1..], depth) == [];
    } else {
      assert (forest + [t])[1..] == forest[1..] + [t];
      FlatSnoc(forest[1..], t, depth);
    }
  }

  lemma {:induction false} TreesOfSnoc(posts: seq<Node>, p: Node)
    requires p.Post? && forall q | q in posts :: q.Post?
    ensures TreesOf(posts + [p]) == TreesOf(posts) + [Tree(Presented(p.reply), Forest(p.replies))]
  {
    if posts == [] {
      assert posts + [p] == [p];
    } else {
      assert (posts + [p])[1..] == posts[1..] + [p];
      TreesOfSnoc(posts[1..], p);
    }
  }

  method Present(r: Reply) returns (shown: Reply)
    ensures shown == Presented(r)
  {
    var name: Option<string> := None;
    if r.displayName.Some? {
      var trimmed := CleanText.TrimEnd(CleanText.TrimStart(r.displayName.value));
      if trimmed != "" {
        name := Some(trimmed);
      }
    }
    var text := CleanText.CleanUp(r.text);
    shown := r.(displayName := name, text := text);
  }

  /** Appends `nodes` and their replies, depth first, siblings oldest
      first. */
  method Collect(nodes: seq<Node>, depth: nat, out: CommentList)
    modifies out
    ensures out.items == old(out.items) + Flat(Forest(nodes), depth)
    decreases nodes
  {
    hide Flat;
    hide Forest;
    hide TreesOf;
    hide Sort;
    hide Shown;
    hide Presented;
    var posts := Sort(Shown(nodes), Posted);
    PostsOf(nodes);
    FlatOfNone(depth);
    for i := 0 to |posts|
      invariant out.items == old(out.items) + Flat(TreesOf(posts[..i]), depth)
    {
      var post := posts[i];
      assert post in nodes;
      var shown := Present(post.reply);
      out.items := out.items + [Comment(shown, depth)];
      Collect(post.replies, Deeper(depth), out);
      NextPost(posts, i, depth);
    }
    assert posts[..|posts|] == posts;
  }

  lemma FlatOfNone(depth: nat)
    ensures Flat(TreesOf([]), depth) == []
  {
  }

  lemma PostsOf(nodes: seq<Node>)
    ensures var posts := Sort(Shown(nodes), Posted);
      (forall p | p in posts :: p in nodes && p.Post?) && TreesOf(posts) == Forest(nodes)
  {
    SortKeeps(Shown(nodes), Posted);
    SortThenTree(Shown(nodes));
    TreesOfShown(nodes);
  }

  lemma NextPost(posts: seq<Node>, i: nat, depth: nat)
    requires i < |posts| && forall p | p in posts :: p.Post?
    ensures Flat(TreesOf(posts[..i + 1]), depth) ==
            Flat(TreesOf(posts[..i]), depth)
            + ([Comment(Presented(posts[i].reply), depth)] + Flat(Forest(posts[i].replies), Deeper(depth)))
  {
    assert posts[..i + 1] == posts[..i] + [posts[i]];
    TreesOfSnoc(posts[..i], posts[i]);
    FlatSnoc(TreesOf(posts[..i]), Tree(Presented(posts[i].reply), Forest(posts[i].replies)), depth);
  }

  method FlattenThread(replies: seq<Node>) returns (thread: Thread)
    ensures thread == Flatten(replies)
  {
    var comments := new CommentList();
    Collect(replies, 0, comments);
    var truncated := |comments.items| > MAX_COMMENTS;
    if truncated {
      comments.items := comments.items[..MAX_COMMENTS];
    }
    thread := Thread(comments.items, truncated);
  }

  // ---- what is shown ----

  /** On the post or on its author. */
  predicate Labelled(node: Node, name: string)
    requires node.Post?
  {
    name in node.labels || name in node.authorLabels
  }

  /** Every reply reached through posts that are there and that neither
      `!hide` nor `!takedown` is on, as it is shown. */
  function Reached(nodes: seq<Node>): multiset<Reply> {
    if nodes == [] then multiset{}
    else if nodes[0].Absent? || Labelled(nodes[0], "!hide") || Labelled(nodes[0], "!takedown") then Reached(nodes[1..])
    else multiset{Presented(nodes[0].reply)} + Reached(nodes[0].replies) + Reached(nodes[1..])
  }

  lemma ShownIff(node: Node)
    ensures IsShown(node) <==> node.Post? && !Labelled(node, "!hide") && !Labelled(node, "!takedown")
  {
    if node.Post? {
      assert forall l :: l in node.labels + node.authorLabels <==> Labelled(node, l);
    }
  }

  /** A display name is shown without the white space around it, and one
      that is nothing else not at all. */
  lemma NameIsTrimmed(before: string, name: string, after: string)
    requires WhiteSpace.AllSpace(before) && WhiteSpace.AllSpace(after) && WhiteSpace.Trimmed(name)
    ensures NameShown(Some(before + name + after)) == if name == "" then None else Some(name)
  {
    CleanText.TrimIs(before, name, after);
  }

  function Members(forest: seq<Tree>): multiset<Reply> {
    if forest == [] then multiset{}
    else multiset{forest[0].reply} + Members(forest[0].kids) + Members(forest[1..])
  }

  function Replies(comments: seq<Comment>): seq<Reply> {
    seq(|comments|, i requires 0 <= i < |comments| => comments[i].reply)
  }

  lemma {:induction false} MembersInsert(t: Tree, forest: seq<Tree>)
    ensures Members(Insert(t, forest, CREATED)) == multiset{t.reply} + Members(t.kids) + Members(forest)
  {
    if forest == [] || AtMost(CREATED(t), CREATED(forest[0])) {
      assert ([t] + forest)[1..] == forest;
    } else {
      MembersInsert(t, forest[1..]);
      assert ([forest[0]] + Insert(t, forest[1..], CREATED))[1..] == Insert(t, forest[1..], CREATED);
    }
  }

  lemma {:induction false} MembersSort(forest: seq<Tree>)
    ensures Members(Sort(forest, CREATED)) == Members(forest)
  {
    if forest != [] {
      MembersSort(forest[1..]);
      MembersInsert(forest[0], Sort(forest[1..], CREATED));
    }
  }

  lemma {:induction false} MembersReached(nodes: seq<Node>)
    ensures Members(Trees(nodes)) == Reached(nodes) && Members(Forest(nodes)) == Reached(nodes)
  {
    MembersSort(Trees(nodes));
    if nodes != [] {
      ShownIff(nodes[0]);
      MembersReached(nodes[1..]);
      if IsShown(nodes[0]) {
        MembersReached(nodes[0].replies);
        assert Trees(nodes)[1..] == Trees(nodes[1..]);
      }
    }
  }

  lemma RepliesSplit(c: Comment, a: seq<Comment>, b: seq<Comment>)
    ensures multiset(Replies([c] + a + b)) == multiset{c.reply} + multiset(Replies(a)) + multiset(Replies(b))
  {
    assert Replies([c] + a + b) == [c.reply] + Replies(a) + Replies(b);
  }

  lemma {:induction false} FlatMembers(forest: seq<Tree>, depth: nat)
    ensures multiset(Replies(Flat(forest, depth))) == Members(forest)
    decreases forest
  {
    if forest != [] {
      FlatMembers(forest[0].kids, Deeper(depth));
      FlatMembers(forest[1..], depth);
      RepliesSplit(Comment(forest[0].reply, depth), Flat(forest[0].kids, Deeper(depth)), Flat(forest[1..], depth));
    }
  }

  /** Before truncation exactly the replies under no hidden or missing post
      are listed, each as often as it occurs. */
  lemma ExactlyTheReachedAreShown(nodes: seq<Node>)
    ensures multiset(Replies(Flat(Forest(nodes), 0))) == Reached(nodes)
  {
    FlatMembers(Forest(nodes), 0);
    MembersReached(nodes);
  }

  // ---- the depths rebuild the forest ----

  /** How many comments from the start are nested deeper. */
  function Under(comments: seq<Comment>, depth: nat): (n: nat)
    ensures n <= |comments|
  {
    if comments == [] || comments[0].depth <= depth then 0 else 1 + Under(comments[1..], depth)
  }

  /** A reader of the list: what follows a reply and is nested deeper
      answers it. */
  function Rebuild(comments: seq<Comment>, depth: nat): seq<Tree>
    decreases |comments|
  {
    if comments == [] then []
    else
      var n := Under(comments[1..], depth);
      [Tree(comments[0].reply, Rebuild(comments[1..][..n], depth + 1))] + Rebuild(comments[1..][n..], depth)
  }

  /** Levels of a forest. */
  function Height(forest: seq<Tree>): nat {
    if forest == [] then 0
    else
      var first, rest := 1 + Height(forest[0].kids), Height(forest[1..]);
      if first < rest then rest else first
  }

  lemma {:induction false} FlatIsDeeper(forest: seq<Tree>, depth: nat, k: nat)
    requires depth <= MAX_DEPTH && k < |Flat(forest, depth)|
    ensures depth <= Flat(forest, depth)[k].depth <= MAX_DEPTH
    decreases forest
  {
    var kids, rest := Flat(forest[0].kids, Deeper(depth)), Flat(forest[1..], depth);
    if 1 <= k < 1 + |kids| {
      FlatIsDeeper(forest[0].kids, Deeper(depth), k - 1);
    } else if k >= 1 + |kids| {
      FlatIsDeeper(forest[1..], depth, k - 1 - |kids|);
    }
  }

  lemma {:induction false} UnderSplit(a: seq<Comment>, b: seq<Comment>, depth: nat)
    requires forall c | c in a :: c.depth > depth
    requires b != [] ==> b[0].depth <= depth
    ensures Under(a + b, depth) == |a|
  {
    if a == [] {
      assert a + b == b;
    } else {
      assert (a + b)[1..] == a[1..] + b;
      UnderSplit(a[1..], b, depth);
    }
  }

  /** What is nested deeper answers the first; the next as deep follows it. */
  lemma RebuildFirst(c: Comment, a: seq<Comment>, b: seq<Comment>, depth: nat)
    requires (forall x | x in a :: x.depth > depth) && (b != [] ==> b[0].depth <= depth)
    ensures Rebuild([c] + a + b, depth) == [Tree(c.reply, Rebuild(a, depth + 1))] + Rebuild(b, depth)
  {
    var all := [c] + a + b;
    assert all[1..] == a + b;
    UnderSplit(a, b, depth);
    assert (a + b)[..|a|] == a && (a + b)[|a|..] == b;
  }

  lemma KidsAreDeeper(forest: seq<Tree>, depth: nat)
    requires depth < MAX_DEPTH || forest == []
    ensures Flat(forest, Deeper(depth)) == Flat(forest, depth + 1)
    ensures forall c | c in Flat(forest, Deeper(depth)) :: c.depth > depth
  {
    if forest != [] {
      forall c | c in Flat(forest, depth + 1)
        ensures c.depth > depth
      {
        var k :| 0 <= k < |Flat(forest, depth + 1)| && Flat(forest, depth + 1)[k] == c;
        FlatIsDeeper(forest, depth + 1, k);
      }
    }
  }

  /** A forest with some last branches cut off: every reply that is left is
      under the same one as before. */
  predicate CutOf(cut: seq<Tree>, forest: seq<Tree>) {
    cut == [] ||
    (forest != [] && cut[0].reply == forest[0].reply &&
     if |cut| == 1 then CutOf(cut[0].kids, forest[0].kids)
     else cut[0] == forest[0] && CutOf(cut[1..], forest[1..]))
  }

  lemma RebuildsStep(forest: seq<Tree>, depth: nat)
    requires forest != [] && (depth < MAX_DEPTH || forest[0].kids == [])
    requires Rebuild(Flat(forest[0].kids, depth + 1), depth + 1) == forest[0].kids
    requires Rebuild(Flat(forest[1..], depth), depth) == forest[1..]
    ensures Rebuild(Flat(forest, depth), depth) == forest
  {
    hide Rebuild;
    var kids, rest := Flat(forest[0].kids, depth + 1), Flat(forest[1..], depth);
    KidsAreDeeper(forest[0].kids, depth);
    FlatStarts(forest[1..], depth, |rest|);
    assert rest[..|rest|] == rest;
    RebuildFirst(Comment(forest[0].reply, depth), kids, rest, depth);
  }

  /** Reading a shallow list back gives the visible sorted forest. */
  lemma {:induction false} RebuildsForest(forest: seq<Tree>, depth: nat)
    requires depth + Height(forest) <= MAX_DEPTH + 1
    ensures Rebuild(Flat(forest, depth), depth) == forest
    decreases forest
  {
    hide Flat;
    if forest == [] {
      NothingRebuilds(depth);
    } else {
      hide Rebuild;
      RebuildsForest(forest[0].kids, depth + 1);
      RebuildsForest(forest[1..], depth);
      RebuildsStep(forest, depth);
    }
  }

  lemma NothingRebuilds(depth: nat)
    ensures Rebuild(Flat([], depth), depth) == []
  {
  }

  lemma TakeOf(c: Comment, a: seq<Comment>, b: seq<Comment>, n: nat)
    requires n <= |a| + |b|
    ensures ([c] + a + b)[..n + 1] == if n < |a| then [c] + a[..n] + [] else [c] + a + b[..n - |a|]
  {
  }

  lemma {:induction false} HeightAtMost(forest: seq<Tree>, depth: nat)
    ensures Height(forest) <= |Flat(forest, depth)|
    decreases forest
  {
    if forest != [] {
      HeightAtMost(forest[0].kids, Deeper(depth));
      HeightAtMost(forest[1..], depth);
    }
  }

  /** Reading a list's start back gives the forest with last branches cut
      off, however deep the forest: the first `m` comments are nested less
      than `m` levels deeper. */
  lemma {:induction false} RebuildsCut(forest: seq<Tree>, depth: nat, m: nat)
    requires depth + m <= MAX_DEPTH + 1 && m <= |Flat(forest, depth)|
    ensures CutOf(Rebuild(Flat(forest, depth)[..m], depth), forest)
    ensures m == |Flat(forest, depth)| ==> Rebuild(Flat(forest, depth)[..m], depth) == forest
    decreases forest, 1
  {
    if m == |Flat(forest, depth)| {
      ShallowIsRead(forest, depth);
      assert Flat(forest, depth)[..m] == Flat(forest, depth);
    } else if m > 0 {
      var n := m - 1;
      TakeOf(Comment(forest[0].reply, depth), Flat(forest[0].kids, Deeper(depth)), Flat(forest[1..], depth), n);
      hide Rebuild;
      hide CutOf;
      if n < |Flat(forest[0].kids, Deeper(depth))| {
        StartIsCut(forest, depth, n);
      } else {
        RestIsCut(forest, depth, n);
      }
    } else {
      assert Flat(forest, depth)[..0] == [];
    }
  }

  lemma ShallowIsRead(forest: seq<Tree>, depth: nat)
    requires depth + |Flat(forest, depth)| <= MAX_DEPTH + 1
    ensures Rebuild(Flat(forest, depth), depth) == forest && CutOf(forest, forest)
  {
    hide *;
    HeightAtMost(forest, depth);
    RebuildsForest(forest, depth);
    CutOfSelf(forest);
  }

  /** Cut after the replies to the first. */
  lemma {:induction false} RestIsCut(forest: seq<Tree>, depth: nat, n: nat)
    requires forest != [] && depth + n + 1 <= MAX_DEPTH + 1
    requires |Flat(forest[0].kids, Deeper(depth))| <= n < |Flat(forest, depth)|
    ensures var kids, rest := Flat(forest[0].kids, Deeper(depth)), Flat(forest[1..], depth);
            CutOf(Rebuild([Comment(forest[0].reply, depth)] + kids + rest[..n - |kids|], depth), forest)
    decreases forest, 0
  {
    var c, kids, rest := Comment(forest[0].reply, depth), Flat(forest[0].kids, Deeper(depth)), Flat(forest[1..], depth);
    var k := n - |kids|;
    assert |Flat(forest, depth)| == 1 + |kids| + |rest|;
    RebuildsCut(forest[1..], depth, k);
    FirstIsRead(forest[0].kids, depth);
    FlatStarts(forest[1..], depth, k);
    hide Flat;
    RebuildFirst(c, kids, rest[..k], depth);
    hide Rebuild;
    CutOfSelf(forest[0].kids);
  }

  lemma FlatStarts(forest: seq<Tree>, depth: nat, k: nat)
    requires k <= |Flat(forest, depth)|
    ensures Flat(forest, depth)[..k] != [] ==> Flat(forest, depth)[..k][0].depth == depth
  {
  }

  lemma FirstIsRead(kids: seq<Tree>, depth: nat)
    requires depth + 1 + |Flat(kids, Deeper(depth))| <= MAX_DEPTH + 1
    ensures Rebuild(Flat(kids, Deeper(depth)), depth + 1) == kids
    ensures forall c | c in Flat(kids, Deeper(depth)) :: c.depth > depth
  {
    HeightAtMost(kids, Deeper(depth));
    if kids != [] {
      KidsAreDeeper(kids, depth);
      RebuildsForest(kids, depth + 1);
    }
  }

  /** Cut within the replies to the first. */
  lemma {:induction false} StartIsCut(forest: seq<Tree>, depth: nat, n: nat)
    requires forest != [] && depth + n + 1 <= MAX_DEPTH + 1 && n < |Flat(forest[0].kids, Deeper(depth))|
    ensures var kids := Flat(forest[0].kids, Deeper(depth));
            CutOf(Rebuild([Comment(forest[0].reply, depth)] + kids[..n] + [], depth), forest)
    decreases forest, 0
  {
    var c, kids := Comment(forest[0].reply, depth), Flat(forest[0].kids, Deeper(depth));
    if n > 0 {
      KidsAreDeeper(forest[0].kids, depth);
      RebuildsCut(forest[0].kids, depth + 1, n);
    }
    hide Flat;
    RebuildFirst(c, kids[..n], [], depth);
  }

  lemma {:induction false} CutOfSelf(forest: seq<Tree>)
    ensures CutOf(forest, forest)
  {
    if forest != [] {
      CutOfSelf(forest[0].kids);
      CutOfSelf(forest[1..]);
    }
  }

  lemma {:induction false} RebuiltIsShallow(comments: seq<Comment>, depth: nat)
    requires depth <= MAX_DEPTH && forall c | c in comments :: c.depth <= MAX_DEPTH
    ensures depth + Height(Rebuild(comments, depth)) <= MAX_DEPTH + 1
    decreases |comments|
  {
    if comments != [] {
      var n := Under(comments[1..], depth);
      RebuiltIsShallow(comments[1..][n..], depth);
      if depth < MAX_DEPTH {
        RebuiltIsShallow(comments[1..][..n], depth + 1);
      } else {
        assert n == 0;
      }
    }
  }

  /** The depths alone rebuild the forest exactly when it has at most 256
      levels: deeper ones share the last depth a byte holds. */
  lemma FaithfulIff(nodes: seq<Node>)
    ensures Rebuild(Flat(Forest(nodes), 0), 0) == Forest(nodes) <==> Height(Forest(nodes)) <= 256
  {
    var forest := Forest(nodes);
    var all := Flat(forest, 0);
    if Height(forest) <= MAX_DEPTH + 1 {
      RebuildsForest(forest, 0);
    } else {
      forall c | c in all
        ensures c.depth <= MAX_DEPTH
      {
        var k :| 0 <= k < |all| && all[k] == c;
        FlatIsDeeper(forest, 0, k);
      }
      RebuiltIsShallow(all, 0);
    }
  }

  /** At most 100 are listed, and the thread is called truncated when there
      were more. After truncation, too, every reply that is left follows its
      parent, and a thread not truncated is read back whole. */
  lemma TruncatedThreadIsCut(nodes: seq<Node>)
    ensures |Flatten(nodes).comments| == if |Reached(nodes)| > 100 then 100 else |Reached(nodes)|
    ensures Flatten(nodes).truncated <==> |Reached(nodes)| > 100
    ensures CutOf(Rebuild(Flatten(nodes).comments, 0), Forest(nodes))
    ensures !Flatten(nodes).truncated ==> Rebuild(Flatten(nodes).comments, 0) == Forest(nodes)
  {
    var all := Flat(Forest(nodes), 0);
    assert all[..|all|] == all;
    ExactlyTheReachedAreShown(nodes);
    assert |multiset(Replies(all))| == |Replies(all)| == |all|;
    RebuildsCut(Forest(nodes), 0, |Flatten(nodes).comments|);
  }
}
