/** traces_span_tree (sentinel/tools/traces.py): one trace as a depth-first call tree. */
module SpanTree {
  import opened Common
  import opened Sorting
  import opened Spans

  datatype Node = Node(span: Span, depth: nat)

  /** The sort key (time, span id). */
  predicate Before(a: Span, b: Span) {
    a.time < b.time || (a.time == b.time && TextLeq(a.id, b.id))
  }

  /** The spans whose parent, within the whole trace, is p; with p None, the roots. */
  function Under(all: seq<Span>, spans: seq<Span>, p: Option<Span>): seq<Span> {
    if spans == [] then []
    else
      var last := spans[|spans| - 1];
      Under(all, spans[..|spans| - 1], p) + if Up(all, last) == p then [last] else []
  }

  lemma {:induction false} UnderMembers(all: seq<Span>, spans: seq<Span>, p: Option<Span>)
    ensures forall c :: c in Under(all, spans, p) <==> c in spans && Up(all, c) == p
  {
    if spans == [] {
    } else {
      var n := |spans| - 1;
      assert spans == spans[..n] + [spans[n]];
      UnderMembers(all, spans[..n], p);
    }
  }

  function Kids(spans: seq<Span>, s: Span): seq<Span> {
    Sort(Under(spans, spans, Some(s)), Before)
  }

  function Roots(spans: seq<Span>): seq<Span> {
    Sort(Under(spans, spans, None), Before)
  }

  lemma {:induction false} KidsAreChildren(spans: seq<Span>, s: Span)
    ensures forall c :: c in Kids(spans, s) <==> c in spans && Up(spans, c) == Some(s)
  {
    SortMembers(Under(spans, spans, Some(s)), Before);
    UnderMembers(spans, spans, Some(s));
  }

  lemma {:induction false} RootsAreRoots(spans: seq<Span>)
    ensures forall r :: r in Roots(spans) <==> r in spans && IsRoot(spans, r)
  {
    SortMembers(Under(spans, spans, None), Before);
    UnderMembers(spans, spans, None);
  }

  ghost predicate At(spans: seq<Span>, s: Span, d: nat) {
    s in spans && Rooted(spans, s, d)
  }

  ghost predicate AllAt(spans: seq<Span>, xs: seq<Span>, d: nat) {
    forall i :: 0 <= i < |xs| ==> At(spans, xs[i], d)
  }

  lemma {:induction false} KidsAreDeeper(spans: seq<Span>, s: Span, d: nat)
    requires At(spans, s, d)
    ensures AllAt(spans, Kids(spans, s), d + 1) && d < |spans|
  {
    KidsAreChildren(spans, s);
    DepthIsBounded(spans, s, d);
    var kids := Kids(spans, s);
    forall i | 0 <= i < |kids| ensures At(spans, kids[i], d + 1) { assert kids[i] in kids; }
  }

  lemma {:induction false} RootsAreAtZero(spans: seq<Span>)
    ensures AllAt(spans, Roots(spans), 0)
  {
    RootsAreRoots(spans);
    var roots := Roots(spans);
    forall i | 0 <= i < |roots| ensures At(spans, roots[i], 0) { assert roots[i] in roots; }
  }

  /** What walk(s, d) appends. */
  ghost function Tree(spans: seq<Span>, s: Span, d: nat): seq<Node>
    requires At(spans, s, d)
    decreases |spans| - d, 0, 0
  {
    KidsAreDeeper(spans, s, d);
    [Node(s, d)] + Forest(spans, Kids(spans, s), d + 1)
  }

  ghost function Forest(spans: seq<Span>, xs: seq<Span>, d: nat): seq<Node>
    requires AllAt(spans, xs, d)
    decreases |spans| - d, 1, |xs|
  {
    if xs == [] then []
    else
      DepthIsBounded(spans, xs[0], d);
      Tree(spans, xs[0], d) + Forest(spans, xs[1..], d)
  }

  /** The whole rendering. */
  ghost function Rendering(spans: seq<Span>): seq<Node> {
    RootsAreAtZero(spans);
    Forest(spans, Roots(spans), 0)
  }

  // ----- the walk ---------------------------------------------------------------------------

  function Lookup(children: map<string, seq<Span>>, id: string): seq<Span> {
    if id in children then children[id] else []
  }

  /** The spans of a prefix that name id as their parent. */
  function Naming(spans: seq<Span>, id: string): seq<Span> {
    if spans == [] then []
    else
      var last := spans[|spans| - 1];
      Naming(spans[..|spans| - 1], id) + if last.parent == Some(id) then [last] else []
  }

  /** The entry of the index for an id, given the spans scanned so far. */
  function NamedIn(spans: seq<Span>, scanned: seq<Span>, id: string): seq<Span> {
    if Find(spans, id).Some? then Naming(scanned, id) else []
  }

  ghost predicate IndexOf(children: map<string, seq<Span>>, spans: seq<Span>, scanned: seq<Span>) {
    forall id :: Lookup(children, id) == NamedIn(spans, scanned, id)
  }

  method ChildrenIndex(spans: seq<Span>) returns (children: map<string, seq<Span>>)
    ensures IndexOf(children, spans, spans)
  {
    children := map[];
    for i := 0 to |spans|
      invariant IndexOf(children, spans, spans[..i])
    {
      var span := spans[i];
      IndexStep(children, spans, i);
      if span.parent.Some? && Find(spans, span.parent.value).Some? {
        children := children[span.parent.value := Lookup(children, span.parent.value) + [span]];
      }
    }
    assert spans[..|spans|] == spans;
  }

  lemma {:induction false} IndexStep(children: map<string, seq<Span>>, spans: seq<Span>, i: nat)
    requires i < |spans| && IndexOf(children, spans, spans[..i])
    ensures IndexOf(if spans[i].parent.Some? && Find(spans, spans[i].parent.value).Some?
                    then children[spans[i].parent.value := Lookup(children, spans[i].parent.value) + [spans[i]]]
                    else children,
                    spans, spans[..i + 1])
  {
    var span := spans[i];
    var next := if span.parent.Some? && Find(spans, span.parent.value).Some?
                then children[span.parent.value := Lookup(children, span.parent.value) + [span]]
                else children;
    forall id ensures Lookup(next, id) == NamedIn(spans, spans[..i + 1], id) {
      NamingSnoc(spans, i, id);
      assert Lookup(children, id) == NamedIn(spans, spans[..i], id);
    }
  }

  lemma {:induction false} NamingSnoc(spans: seq<Span>, i: nat, id: string)
    requires i < |spans|
    ensures Naming(spans[..i + 1], id)
         == Naming(spans[..i], id) + if spans[i].parent == Some(id) then [spans[i]] else []
  {
    assert spans[..i + 1][..i] == spans[..i];
  }

  /** Naming a span's id is the same as having it for parent, as ids are unique. */
  lemma {:induction false} NamingIsUnder(all: seq<Span>, spans: seq<Span>, s: Span)
    requires UniqueIds(all) && s in all
    ensures Naming(spans, s.id) == Under(all, spans, Some(s))
  {
    if spans == [] {
    } else {
      NamingIsUnder(all, spans[..|spans| - 1], s);
      FindUnique(all, s);
    }
  }

  // ----- which spans are rendered, and how deep --------------------------------------------

  /** n hangs from s, which is at depth d. */
  ghost predicate HangsFrom(spans: seq<Span>, n: Node, s: Span, d: nat) {
    && At(spans, n.span, n.depth) && n.depth >= d
    && UpBy(spans, n.span, n.depth - d) == Some(s)
  }

  lemma {:induction false} HangsFromParent(spans: seq<Span>, n: Node, x: Span, s: Span, d: nat)
    requires HangsFrom(spans, n, x, d + 1) && Up(spans, x) == Some(s)
    ensures HangsFrom(spans, n, s, d)
  {
    UpByAdds(spans, n.span, n.depth - d - 1, 1);
    assert UpBy(spans, s, 0) == Some(s);
    assert UpBy(spans, x, 1) == Some(s);
  }

  lemma {:induction false} HangsFromChild(spans: seq<Span>, n: Node, s: Span, d: nat) returns (x: Span)
    requires HangsFrom(spans, n, s, d) && n.depth > d
    ensures HangsFrom(spans, n, x, d + 1) && Up(spans, x) == Some(s) && At(spans, x, d + 1)
  {
    var k := n.depth - d - 1;
    RootedAbove(spans, n.span, n.depth, k);
    x := UpBy(spans, n.span, k).value;
    UpByAdds(spans, n.span, k, 1);
    assert UpBy(spans, x, 1) == Some(s);
    var p := Up(spans, x);
    assert p.Some? && UpBy(spans, p.value, 0) == p;
    assert x in spans by { if k == 0 { assert x == n.span; } }
  }

  lemma {:induction false} TreeIsSound(spans: seq<Span>, s: Span, d: nat, n: Node)
    requires At(spans, s, d) && n in Tree(spans, s, d)
    ensures HangsFrom(spans, n, s, d)
    decreases |spans| - d, 0, 0
  {
    KidsAreDeeper(spans, s, d);
    if n == Node(s, d) {
      assert UpBy(spans, s, 0) == Some(s);
    } else {
      var x := ForestIsSound(spans, Kids(spans, s), d + 1, n);
      KidsAreChildren(spans, s);
      HangsFromParent(spans, n, x, s, d);
    }
  }

  lemma {:induction false} ForestIsSound(spans: seq<Span>, xs: seq<Span>, d: nat, n: Node) returns (x: Span)
    requires AllAt(spans, xs, d) && n in Forest(spans, xs, d)
    ensures x in xs && HangsFrom(spans, n, x, d)
    decreases |spans| - d, 1, |xs|
  {
    DepthIsBounded(spans, xs[0], d);
    if n in Tree(spans, xs[0], d) {
      TreeIsSound(spans, xs[0], d, n);
      x := xs[0];
    } else {
      x := ForestIsSound(spans, xs[1..], d, n);
    }
  }

  lemma {:induction false} InForest(spans: seq<Span>, xs: seq<Span>, d: nat, x: Span, n: Node)
    requires AllAt(spans, xs, d) && x in xs && At(spans, x, d) && n in Tree(spans, x, d)
    ensures n in Forest(spans, xs, d)
    decreases |xs|
  {
    if x != xs[0] { InForest(spans, xs[1..], d, x, n); }
  }

  lemma {:induction false} InTree(spans: seq<Span>, s: Span, d: nat, x: Span, n: Node)
    requires At(spans, s, d) && x in Kids(spans, s) && At(spans, x, d + 1) && n in Tree(spans, x, d + 1)
    ensures n in Tree(spans, s, d)
  {
    KidsAreDeeper(spans, s, d);
    InForest(spans, Kids(spans, s), d + 1, x, n);
  }

  lemma {:induction false} TreeIsComplete(spans: seq<Span>, s: Span, d: nat, n: Node)
    requires At(spans, s, d) && HangsFrom(spans, n, s, d)
    ensures n in Tree(spans, s, d)
    decreases n.depth - d
  {
    if n.depth > d {
      var x := HangsFromChild(spans, n, s, d);
      KidsAreChildren(spans, s);
      TreeIsComplete(spans, x, d + 1, n);
      InTree(spans, s, d, x, n);
    } else {
      assert n == Node(s, d);
    }
  }

  /** The tree shows exactly the spans whose parent chain reaches a root, each at its distance
      from that root. */
  lemma {:induction false} RendersExactlyTheRooted(spans: seq<Span>, s: Span, d: nat)
    ensures Node(s, d) in Rendering(spans) <==> s in spans && Rooted(spans, s, d)
  {
    RootsAreRoots(spans);
    RootsAreAtZero(spans);
    var n := Node(s, d);
    if n in Rendering(spans) {
      var x := ForestIsSound(spans, Roots(spans), 0, n);
    }
    if s in spans && Rooted(spans, s, d) {
      RootedAbove(spans, s, d, d);
      var r := UpBy(spans, s, d).value;
      assert r in spans by { if d == 0 { assert r == s; } }
      TreeIsComplete(spans, r, 0, n);
      InForest(spans, Roots(spans), 0, r, n);
    }
  }

  // ----- each once -----------------------------------------------------------------------------

  ghost predicate DistinctSpans(nodes: seq<Node>) {
    forall i, j :: 0 <= i < j < |nodes| ==> nodes[i].span != nodes[j].span
  }

  lemma {:induction false} DistinctAppend(a: seq<Node>, b: seq<Node>)
    requires DistinctSpans(a) && DistinctSpans(b)
    requires forall i, j :: 0 <= i < |a| && 0 <= j < |b| ==> a[i].span != b[j].span
    ensures DistinctSpans(a + b)
  {}

  lemma {:induction false} TreeIsDistinct(spans: seq<Span>, s: Span, d: nat)
    requires UniqueIds(spans) && At(spans, s, d)
    ensures DistinctSpans(Tree(spans, s, d))
    decreases |spans| - d, 0, 0
  {
    KidsAreDeeper(spans, s, d);
    KidsAreDistinct(spans, Some(s));
    ForestIsDistinct(spans, Kids(spans, s), d + 1);
    var rest := Forest(spans, Kids(spans, s), d + 1);
    forall j | 0 <= j < |rest| ensures rest[j].span != s {
      BelowIsOther(spans, Kids(spans, s), s, d, rest[j]);
    }
    DistinctAppend([Node(s, d)], rest);
  }

  lemma {:induction false} BelowIsOther(spans: seq<Span>, xs: seq<Span>, s: Span, d: nat, n: Node)
    requires At(spans, s, d) && AllAt(spans, xs, d + 1)
    requires n in Forest(spans, xs, d + 1)
    ensures n.span != s
  {
    var x := ForestIsSound(spans, xs, d + 1, n);
    if n.span == s { DepthIsUnique(spans, s, d, n.depth); }
  }

  lemma {:induction false} ForestIsDistinct(spans: seq<Span>, xs: seq<Span>, d: nat)
    requires UniqueIds(spans) && AllAt(spans, xs, d) && Distinct(xs)
    ensures DistinctSpans(Forest(spans, xs, d))
    decreases |spans| - d, 1, |xs|
  {
    if xs == [] {
    } else {
      DepthIsBounded(spans, xs[0], d);
      var a, b := Tree(spans, xs[0], d), Forest(spans, xs[1..], d);
      TreeIsDistinct(spans, xs[0], d);
      ForestIsDistinct(spans, xs[1..], d);
      forall i, j | 0 <= i < |a| && 0 <= j < |b| ensures a[i].span != b[j].span {
        TreeVersusForest(spans, xs, d, a[i], b[j]);
      }
      DistinctAppend(a, b);
    }
  }

  lemma {:induction false} TreeVersusForest(spans: seq<Span>, xs: seq<Span>, d: nat, m: Node, n: Node)
    requires xs != [] && AllAt(spans, xs, d) && Distinct(xs)
    requires m in Tree(spans, xs[0], d) && n in Forest(spans, xs[1..], d)
    ensures m.span != n.span
  {
    TreeIsSound(spans, xs[0], d, m);
    var x := ForestIsSound(spans, xs[1..], d, n);
    if m.span == n.span { DepthIsUnique(spans, m.span, m.depth, n.depth); }
  }

  lemma {:induction false} UnderIsDistinct(all: seq<Span>, spans: seq<Span>, p: Option<Span>)
    requires UniqueIds(spans)
    ensures Distinct(Under(all, spans, p))
  {
    if spans == [] {
    } else {
      var n := |spans| - 1;
      var init := Under(all, spans[..n], p);
      UnderIsDistinct(all, spans[..n], p);
      UnderMembers(all, spans[..n], p);
      forall i | 0 <= i < |init| ensures init[i] != spans[n] { assert init[i] in init; }
    }
  }

  lemma {:induction false} KidsAreDistinct(spans: seq<Span>, p: Option<Span>)
    requires UniqueIds(spans)
    ensures Distinct(Sort(Under(spans, spans, p), Before))
  {
    UnderIsDistinct(spans, spans, p);
    SortKeepsDistinct(Under(spans, spans, p), Before);
  }

  /** Each span is rendered at most once, and all are exactly when no parent pointers form a cycle. */
  lemma {:induction false} RendersAllIffAcyclic(spans: seq<Span>)
    requires UniqueIds(spans)
    ensures var nodes := Rendering(spans);
            && DistinctSpans(nodes) && |nodes| <= |spans|
            && (|nodes| == |spans| <==> Acyclic(spans))
  {
    var nodes := Rendering(spans);
    RootsAreAtZero(spans);
    KidsAreDistinct(spans, None);
    ForestIsDistinct(spans, Roots(spans), 0);
    CountDistinct(nodes);
    CountSpans(spans);
    forall s ensures s in Shown(nodes) <==> s in spans && HasRoot(spans, s) { ShownIffRooted(spans, s); }
    AllRootedIffAcyclic(spans);
    SizeOfSubset(Shown(nodes), set s | s in spans);
  }

  ghost function Shown(nodes: seq<Node>): set<Span> {
    set i | 0 <= i < |nodes| :: nodes[i].span
  }

  lemma {:induction false} ShownIffRooted(spans: seq<Span>, s: Span)
    ensures s in Shown(Rendering(spans)) <==> s in spans && HasRoot(spans, s)
  {
    var nodes := Rendering(spans);
    if s in Shown(nodes) {
      var i :| 0 <= i < |nodes| && nodes[i].span == s;
      assert Node(s, nodes[i].depth) in nodes;
      RendersExactlyTheRooted(spans, s, nodes[i].depth);
    }
    if s in spans && HasRoot(spans, s) {
      var d: nat :| Rooted(spans, s, d);
      RendersExactlyTheRooted(spans, s, d);
      var i :| 0 <= i < |nodes| && nodes[i] == Node(s, d);
      assert nodes[i].span in Shown(nodes);
    }
  }

  lemma {:induction false} CountDistinct(nodes: seq<Node>)
    requires DistinctSpans(nodes)
    ensures |Shown(nodes)| == |nodes|
  {
    if nodes == [] {
    } else {
      var n := |nodes| - 1;
      var init := nodes[..n];
      CountDistinct(init);
      assert Shown(nodes) == Shown(init) + {nodes[n].span} by {
        forall i | 0 <= i < |nodes| ensures nodes[i].span in Shown(init) + {nodes[n].span} {
          if i < n { assert init[i].span in Shown(init); }
        }
      }
      assert nodes[n].span !in Shown(init);
    }
  }

  lemma {:induction false} CountSpans(spans: seq<Span>)
    requires UniqueIds(spans)
    ensures |set s | s in spans| == |spans|
  {
    if spans == [] {
    } else {
      var n := |spans| - 1;
      CountSpans(spans[..n]);
      assert spans == spans[..n] + [spans[n]];
      assert (set s | s in spans) == (set s | s in spans[..n]) + {spans[n]};
      assert spans[n] !in spans[..n];
    }
  }

  // ----- the list of depths is the tree ---------------------------------------------------------

  /** Entry j is the parent of entry i: one level up, and nothing at or above i's level between. */
  ghost predicate ParentEntry(spans: seq<Span>, nodes: seq<Node>, j: int, i: int) {
    && 0 <= j < i < |nodes| && Up(spans, nodes[i].span) == Some(nodes[j].span)
    && nodes[j].depth + 1 == nodes[i].depth
    && forall k :: j < k < i ==> nodes[k].depth >= nodes[i].depth
  }

  ghost predicate Placed(spans: seq<Span>, nodes: seq<Node>, i: int, d: nat) {
    0 <= i < |nodes| && nodes[i].depth >= d && (nodes[i].depth == d || exists j :: ParentEntry(spans, nodes, j, i))
  }

  ghost predicate PreOrder(spans: seq<Span>, nodes: seq<Node>, d: nat) {
    forall i :: 0 <= i < |nodes| ==> Placed(spans, nodes, i, d)
  }

  lemma {:induction false} PreOrderAppend(spans: seq<Span>, a: seq<Node>, b: seq<Node>, d: nat)
    requires PreOrder(spans, a, d) && PreOrder(spans, b, d)
    ensures PreOrder(spans, a + b, d)
  {
    var ab := a + b;
    forall i | 0 <= i < |ab| ensures Placed(spans, ab, i, d) {
      if i < |a| {
        assert Placed(spans, a, i, d);
        if j :| ParentEntry(spans, a, j, i) { assert ParentEntry(spans, ab, j, i); }
      } else {
        var k := i - |a|;
        assert Placed(spans, b, k, d);
        if j :| ParentEntry(spans, b, j, k) { assert ParentEntry(spans, ab, j + |a|, i); }
      }
    }
  }

  lemma {:induction false} TreePreOrder(spans: seq<Span>, s: Span, d: nat)
    requires At(spans, s, d)
    ensures PreOrder(spans, Tree(spans, s, d), d)
    decreases |spans| - d, 0, 0
  {
    KidsAreDeeper(spans, s, d);
    KidsAreChildren(spans, s);
    var below := Forest(spans, Kids(spans, s), d + 1);
    ForestPreOrder(spans, Kids(spans, s), d + 1);
    forall i | 0 <= i < |below| && below[i].depth == d + 1 ensures Up(spans, below[i].span) == Some(s) {
      var x := ForestIsSound(spans, Kids(spans, s), d + 1, below[i]);
    }
    HeadOverForest(spans, s, d, below);
  }

  lemma {:induction false} HeadOverForest(spans: seq<Span>, s: Span, d: nat, below: seq<Node>)
    requires PreOrder(spans, below, d + 1)
    requires forall i :: 0 <= i < |below| && below[i].depth == d + 1 ==> Up(spans, below[i].span) == Some(s)
    ensures PreOrder(spans, [Node(s, d)] + below, d)
  {
    var all := [Node(s, d)] + below;
    forall k | 0 <= k < |below| ensures below[k].depth >= d + 1 { assert Placed(spans, below, k, d + 1); }
    forall i | 0 <= i < |all| ensures Placed(spans, all, i, d) {
      if i > 0 {
        assert Placed(spans, below, i - 1, d + 1);
        if all[i].depth == d + 1 {
          assert ParentEntry(spans, all, 0, i);
        } else {
          var j :| ParentEntry(spans, below, j, i - 1);
          ParentEntryShift(spans, Node(s, d), below, j, i - 1);
        }
      }
    }
  }

  lemma {:induction false} ParentEntryShift(spans: seq<Span>, head: Node, below: seq<Node>, j: int, i: int)
    requires ParentEntry(spans, below, j, i)
    ensures ParentEntry(spans, [head] + below, j + 1, i + 1)
  {}

  lemma {:induction false} ForestPreOrder(spans: seq<Span>, xs: seq<Span>, d: nat)
    requires AllAt(spans, xs, d)
    ensures PreOrder(spans, Forest(spans, xs, d), d)
    decreases |spans| - d, 1, |xs|
  {
    if xs == [] {
    } else {
      DepthIsBounded(spans, xs[0], d);
      TreePreOrder(spans, xs[0], d);
      ForestPreOrder(spans, xs[1..], d);
      PreOrderAppend(spans, Tree(spans, xs[0], d), Forest(spans, xs[1..], d), d);
    }
  }

  /** Each entry below the top follows its parent's entry with nothing shallower in between, so
      the flat list of depths determines the call tree. */
  lemma {:induction false} DepthsDetermineTheTree(spans: seq<Span>)
    ensures PreOrder(spans, Rendering(spans), 0)
  {
    RootsAreAtZero(spans);
    ForestPreOrder(spans, Roots(spans), 0);
  }

  // ----- siblings by time -------------------------------------------------------------------------

  lemma {:induction false} BeforeIsTotal()
    ensures TotalPreorder(Before)
  {
    forall x: Span, y: Span ensures Before(x, y) || Before(y, x) { TextTotal(x.id, y.id); }
    forall x: Span, y: Span, z: Span | Before(x, y) && Before(y, z) ensures Before(x, z) {
      if x.time == y.time == z.time { TextTransitive(x.id, y.id, z.id); }
    }
  }

  predicate Siblings(spans: seq<Span>, m: Node, n: Node) {
    m.depth == n.depth && Up(spans, m.span) == Up(spans, n.span)
  }

  ghost predicate SiblingsInOrder(spans: seq<Span>, nodes: seq<Node>) {
    forall i, k :: 0 <= i < k < |nodes| && Siblings(spans, nodes[i], nodes[k]) ==>
      var s, t := nodes[i].span, nodes[k].span;
      s.time <= t.time && (s.time == t.time ==> TextLeq(s.id, t.id))
  }

  /** Siblings under different trees can only be those trees' tops. */
  lemma {:induction false} CousinsAreNotSiblings(spans: seq<Span>, m: Node, n: Node, x: Span, y: Span, d: nat)
    requires HangsFrom(spans, m, x, d) && HangsFrom(spans, n, y, d) && Siblings(spans, m, n)
    ensures x == y || (m.span == x && n.span == y)
  {}

  lemma {:induction false} ForestSiblings(spans: seq<Span>, xs: seq<Span>, d: nat)
    requires AllAt(spans, xs, d) && Distinct(xs) && SortedBy(xs, Before) && UniqueIds(spans)
    ensures SiblingsInOrder(spans, Forest(spans, xs, d))
    decreases |spans| - d, 1, |xs|
  {
    if xs == [] {
    } else {
      DepthIsBounded(spans, xs[0], d);
      var a, b := Tree(spans, xs[0], d), Forest(spans, xs[1..], d);
      TreeSiblings(spans, xs[0], d);
      ForestSiblings(spans, xs[1..], d);
      forall i, k | 0 <= i < |a| && 0 <= k < |b| && Siblings(spans, a[i], b[k]) ensures Before(a[i].span, b[k].span) {
        TopsInOrder(spans, xs, d, a[i], b[k]);
      }
      SiblingsAppend(spans, a, b);
    }
  }

  lemma {:induction false} TopsInOrder(spans: seq<Span>, xs: seq<Span>, d: nat, m: Node, n: Node)
    requires xs != [] && AllAt(spans, xs, d) && Distinct(xs) && SortedBy(xs, Before)
    requires m in Tree(spans, xs[0], d) && n in Forest(spans, xs[1..], d) && Siblings(spans, m, n)
    ensures Before(m.span, n.span)
  {
    TreeIsSound(spans, xs[0], d, m);
    var y := ForestIsSound(spans, xs[1..], d, n);
    CousinsAreNotSiblings(spans, m, n, xs[0], y, d);
  }

  lemma {:induction false} SiblingsAppend(spans: seq<Span>, a: seq<Node>, b: seq<Node>)
    requires SiblingsInOrder(spans, a) && SiblingsInOrder(spans, b)
    requires forall i, k :: 0 <= i < |a| && 0 <= k < |b| && Siblings(spans, a[i], b[k]) ==> Before(a[i].span, b[k].span)
    ensures SiblingsInOrder(spans, a + b)
  {}

  lemma {:induction false} TreeSiblings(spans: seq<Span>, s: Span, d: nat)
    requires At(spans, s, d) && UniqueIds(spans)
    ensures SiblingsInOrder(spans, Tree(spans, s, d))
    decreases |spans| - d, 0, 0
  {
    KidsAreDeeper(spans, s, d);
    KidsAreDistinct(spans, Some(s));
    BeforeIsTotal();
    SortSorts(Under(spans, spans, Some(s)), Before);
    var below := Forest(spans, Kids(spans, s), d + 1);
    ForestSiblings(spans, Kids(spans, s), d + 1);
    forall k | 0 <= k < |below| ensures below[k].depth > d {
      var x := ForestIsSound(spans, Kids(spans, s), d + 1, below[k]);
    }
    SiblingsAppend(spans, [Node(s, d)], below);
  }

  /** Spans with the same parent, and the roots, are listed by (time, span id). */
  lemma {:induction false} SiblingsAreListedByTime(spans: seq<Span>)
    requires UniqueIds(spans)
    ensures SiblingsInOrder(spans, Rendering(spans))
  {
    RootsAreAtZero(spans);
    KidsAreDistinct(spans, None);
    BeforeIsTotal();
    SortSorts(Under(spans, spans, None), Before);
    ForestSiblings(spans, Roots(spans), 0);
  }
}
