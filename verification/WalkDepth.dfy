/** How deep the span-tree walk can go (sentinel/tools/traces.py) when nothing is known about the
    spans: ids may repeat, as a live trace is not deduplicated. The walk follows ids, so a span
    is a child of every span that bears its parent's id. */
module WalkDepth {
  import opened Common
  import opened Spans

  predicate WalkChild(spans: seq<Span>, s: Span, t: Span) {
    t in spans && t.parent == Some(s.id)
  }

  /** The open calls of walk at some moment: a root, then a child of each before. */
  ghost predicate Descent(spans: seq<Span>, calls: seq<Span>) {
    && calls != [] && calls[0] in spans && IsRoot(spans, calls[0])
    && forall i :: 0 <= i < |calls| - 1 ==> WalkChild(spans, calls[i], calls[i + 1])
  }

  /** The recursion reaches every depth: it never ends. */
  ghost predicate Endless(spans: seq<Span>) {
    forall n: nat :: ReachesDepth(spans, n)
  }

  ghost predicate ReachesDepth(spans: seq<Span>, n: nat) {
    exists calls :: Descent(spans, calls) && |calls| > n
  }

  /** Some span is walked again below itself. */
  ghost predicate Revisits(spans: seq<Span>) {
    exists calls, i, j :: RevisitAt(spans, calls, i, j)
  }

  ghost predicate RevisitAt(spans: seq<Span>, calls: seq<Span>, i: int, j: int) {
    Descent(spans, calls) && 0 <= i < j < |calls| && calls[i] == calls[j]
  }

  /** The walk never ends exactly when, below some root, a span comes under itself; otherwise its
      depth is at most the number of spans. */
  lemma {:induction false} EndlessIffRevisits(spans: seq<Span>)
    ensures Endless(spans) <==> Revisits(spans)
    ensures !Revisits(spans) ==> forall calls :: Descent(spans, calls) ==> |calls| <= |spans|
  {
    forall calls | Descent(spans, calls) && !Revisits(spans) ensures |calls| <= |spans| {
      WithoutRevisits(spans, calls);
    }
    if Endless(spans) {
      assert ReachesDepth(spans, |spans|);
      var calls :| Descent(spans, calls) && |calls| > |spans|;
    }
    if Revisits(spans) {
      var calls, i, j :| RevisitAt(spans, calls, i, j);
      forall n: nat ensures ReachesDepth(spans, n) {
        var deep := GoRound(spans, calls, i, j, n);
      }
    }
  }

  lemma {:induction false} WithoutRevisits(spans: seq<Span>, calls: seq<Span>)
    requires Descent(spans, calls) && !Revisits(spans)
    ensures |calls| <= |spans|
  {
    forall i, j | 0 <= i < j < |calls| ensures calls[i] != calls[j] {
      assert calls[i] == calls[j] ==> RevisitAt(spans, calls, i, j);
    }
    forall i | 0 <= i < |calls| ensures calls[i] in spans {
      if i > 0 { assert WalkChild(spans, calls[i - 1], calls[i]); }
    }
    DistinctFit(calls, set s | s in spans);
    SetOfSeqFits(spans);
  }

  /** Going round the cycle n times. */
  lemma {:induction false} GoRound(spans: seq<Span>, calls: seq<Span>, i: nat, j: nat, n: nat) returns (deep: seq<Span>)
    requires RevisitAt(spans, calls, i, j)
    ensures Descent(spans, deep) && |deep| > n && deep[|deep| - 1] == calls[i]
    decreases n
  {
    if n == 0 {
      deep := calls[..i + 1];
    } else {
      var before := GoRound(spans, calls, i, j, n - 1);
      var round := calls[i + 1..j + 1];
      deep := before + round;
      forall k | 0 <= k < |deep| - 1 ensures WalkChild(spans, deep[k], deep[k + 1]) {
        if k >= |before| - 1 {
          var m := i + (k - (|before| - 1));
          assert deep[k] == calls[m] && deep[k + 1] == calls[m + 1];
          assert WalkChild(spans, calls[m], calls[m + 1]);
        }
      }
    }
  }

  /** With unique ids the k-th open call is at depth k, so the walk always ends, whatever the
      parent pointers. */
  lemma {:induction false} UniqueIdsEnd(spans: seq<Span>)
    requires UniqueIds(spans)
    ensures !Revisits(spans) && !Endless(spans)
  {
    forall calls, i, j | Descent(spans, calls) && 0 <= i < j < |calls| ensures calls[i] != calls[j] {
      OpenCallIsAtDepth(spans, calls, i);
      OpenCallIsAtDepth(spans, calls, j);
      if calls[i] == calls[j] { DepthIsUnique(spans, calls[i], i, j); }
    }
    EndlessIffRevisits(spans);
  }

  lemma {:induction false} OpenCallIsAtDepth(spans: seq<Span>, calls: seq<Span>, k: nat)
    requires UniqueIds(spans) && Descent(spans, calls) && k < |calls|
    ensures calls[k] in spans && Rooted(spans, calls[k], k)
  {
    if k == 0 {
    } else {
      OpenCallIsAtDepth(spans, calls, k - 1);
      assert WalkChild(spans, calls[k - 1], calls[k]);
      FindUnique(spans, calls[k - 1]);
    }
  }

  /** A repeated id is enough to lose termination: a root, and another span of the same id that
      names that id as its parent. */
  lemma {:induction false} ARepeatedIdCanBeEndless(root: Span, twin: Span)
    requires root.parent == None && twin.id == root.id && twin.parent == Some(root.id)
    ensures Endless([root, twin])
  {
    var spans := [root, twin];
    assert RevisitAt(spans, [root, twin, twin], 1, 2);
    EndlessIffRevisits(spans);
  }
}
