/** Capping a list of rows (sentinel_rcaeval/normalize.py): priority rows first, the rest
    sampled evenly. Rows are told apart by position, as the source does by object identity. */
module Downsample {

  /** Positions below n of rows that have, or lack, priority. */
  function Positions(flags: seq<bool>, want: bool): seq<nat> {
    if flags == [] then []
    else
      var n := |flags| - 1;
      Positions(flags[..n], want) + if flags[n] == want then [n] else []
  }

  /** int(i * (n / k)), exactly. */
  function SampleIndex(i: nat, n: nat, k: nat): nat
    requires k > 0
  {
    i * n / k
  }

  function Clamp(i: nat, n: nat): (c: nat)
    requires n > 0
    ensures c < n
  {
    if i < n - 1 then i else n - 1
  }

  /** Where in the low-priority rows the k samples are taken. */
  function Indices(n: nat, k: nat): (idx: seq<nat>)
    requires 0 < k <= n
    ensures |idx| == k && Within(idx, n)
  {
    seq(k, i requires 0 <= i < k => Clamp(SampleIndex(i, n, k), n))
  }

  predicate Within(xs: seq<nat>, n: nat) {
    forall j :: 0 <= j < |xs| ==> xs[j] < n
  }

  function Picked(rest: seq<nat>, idx: seq<nat>): seq<nat>
    requires Within(idx, |rest|)
  {
    seq(|idx|, i requires 0 <= i < |idx| => rest[idx[i]])
  }

  /** Evenly spaced picks from the low-priority positions. */
  function Sampled(rest: seq<nat>, k: nat): seq<nat>
    requires 0 < k <= |rest|
  {
    Picked(rest, Indices(|rest|, k))
  }

  /** The positions the source keeps. */
  function Kept(flags: seq<bool>, cap: nat): seq<nat>
    requires |flags| > cap
  {
    var keep := Positions(flags, true);
    if |keep| >= cap then keep[..cap]
    else
      Filter(|flags|, Chosen(flags, cap))
  }

  function Elems(xs: seq<nat>): set<nat> {
    set p | p in xs
  }

  /** [r for r in rows if id(r) in kept_ids] */
  function Filter(n: nat, chosen: set<nat>): seq<nat> {
    if n == 0 then [] else Filter(n - 1, chosen) + if n - 1 in chosen then [n - 1] else []
  }

  function Flags<T>(rows: seq<T>, priority: T -> bool): seq<bool> {
    seq(|rows|, i requires 0 <= i < |rows| => priority(rows[i]))
  }

  /** Every priority row is kept when fewer than cap have priority, else the first cap of them. */
  ghost predicate PriorityFirst(flags: seq<bool>, cap: nat, kept: seq<nat>) {
    var keep := Positions(flags, true);
    if |keep| < cap then forall p: nat :: p < |flags| && flags[p] ==> p in kept
    else kept == keep[..cap]
  }

  method Cap<T>(rows: seq<T>, cap: nat, priority: T -> bool) returns (out: seq<T>)
    ensures |rows| <= cap ==> out == rows
    ensures |rows| > cap ==> |out| == cap
    ensures |rows| > cap ==>
      var kept := Kept(Flags(rows, priority), cap);
      && |kept| == cap && Rising(kept) && PriorityFirst(Flags(rows, priority), cap, kept)
      && forall j :: 0 <= j < cap ==> kept[j] < |rows| && out[j] == rows[kept[j]]
  {
    if |rows| <= cap { return rows; }
    var flags := Flags(rows, priority);
    var kept := Kept(flags, cap);
    KeptIsExact(flags, cap);
    out := [];
    for j := 0 to |kept|
      invariant |out| == j && forall l :: 0 <= l < j ==> out[l] == rows[kept[l]]
    {
      out := out + [rows[kept[j]]];
    }
  }

  ghost predicate Rising(xs: seq<nat>) {
    forall i, j :: 0 <= i < j < |xs| ==> xs[i] < xs[j]
  }

  lemma {:induction false} PositionsRise(flags: seq<bool>, want: bool)
    ensures Rising(Positions(flags, want)) && Within(Positions(flags, want), |flags|)
  {
    if flags == [] {
    } else {
      PositionsRise(flags[..|flags| - 1], want);
    }
  }

  ghost predicate Flagged(ps: seq<nat>, flags: seq<bool>, want: bool) {
    forall p: nat :: p in ps <==> p < |flags| && flags[p] == want
  }

  lemma {:induction false} PositionsAre(flags: seq<bool>, want: bool)
    ensures Flagged(Positions(flags, want), flags, want)
  {
    if flags == [] {
    } else {
      var n := |flags| - 1;
      PositionsAre(flags[..n], want);
      var front := Positions(flags[..n], want);
      assert Positions(flags, want) == front + if flags[n] == want then [n] else [];
      forall p: nat ensures p in Positions(flags, want) <==> p < |flags| && flags[p] == want {
        assert p in front <==> p < n && flags[..n][p] == want;
      }
    }
  }

  lemma {:induction false} PositionsPartition(flags: seq<bool>)
    ensures |Positions(flags, true)| + |Positions(flags, false)| == |flags|
  {
    if flags == [] {
    } else {
      PositionsPartition(flags[..|flags| - 1]);
    }
  }

  lemma {:induction false} AtMost(a: int, b: int, k: nat)
    requires a <= b
    ensures a * k <= b * k
  {
    var d := b - a;
    assert b * k == a * k + d * k;
    assert d * k >= 0;
  }

  lemma {:induction false} DivAtLeast(x: nat, m: nat, k: nat)
    requires k > 0 && x >= m * k
    ensures x / k >= m
  {
    var q := x / k;
    assert x == q * k + x % k;
    assert (m - 1) * k == m * k - k;
    if q < m { AtMost(q, m - 1, k); }
  }

  lemma {:induction false} DivBelow(x: nat, m: nat, k: nat)
    requires k > 0 && x < m * k
    ensures x / k < m
  {
    var q := x / k;
    assert x == q * k + x % k;
    if q >= m { AtMost(m, q, k); }
  }

  lemma {:induction false} FloorStep(a: nat, n: nat, k: nat)
    requires 0 < k < n
    ensures a / k < (a + n) / k
  {
    var q := a / k;
    assert a == q * k + a % k;
    assert (q + 1) * k == q * k + k;
    DivAtLeast(a + n, q + 1, k);
  }

  /** The sampling index is i * n / k rounded down. */
  lemma {:induction false} SampleIndexIsFloor(i: nat, n: nat, k: nat)
    requires k > 0
    ensures SampleIndex(i, n, k) * k <= i * n < (SampleIndex(i, n, k) + 1) * k
  {
    var q := SampleIndex(i, n, k);
    assert i * n == q * k + (i * n) % k;
    assert (q + 1) * k == q * k + k;
  }

  /** floor(i*n/k) rises strictly for n > k, and stays below n. */
  lemma {:induction false} SampleIndexRises(i: nat, j: nat, n: nat, k: nat)
    requires 0 < k < n && i < j
    ensures SampleIndex(i, n, k) < SampleIndex(j, n, k)
    decreases j - i
  {
    assert (j - 1) * n + n == j * n;
    FloorStep((j - 1) * n, n, k);
    if i < j - 1 { SampleIndexRises(i, j - 1, n, k); }
  }

  lemma {:induction false} SampleIndexIsBelow(i: nat, n: nat, k: nat)
    requires 0 < k && i < k && n > 0
    ensures SampleIndex(i, n, k) < n
  {
    AtMost(i + 1, k, n);
    assert (i + 1) * n == i * n + n && k * n == n * k;
    DivBelow(i * n, n, k);
  }

  lemma {:induction false} IndexIsExact(i: nat, n: nat, k: nat)
    requires 0 < k <= n && i < k
    ensures Indices(n, k)[i] == SampleIndex(i, n, k)
  {
    SampleIndexIsBelow(i, n, k);
  }

  lemma {:induction false} IndicesRise(n: nat, k: nat)
    requires 0 < k < n
    ensures Rising(Indices(n, k))
  {
    forall i, j | 0 <= i < j < k ensures Indices(n, k)[i] < Indices(n, k)[j] {
      IndexIsExact(i, n, k);
      IndexIsExact(j, n, k);
      SampleIndexRises(i, j, n, k);
    }
  }

  lemma {:induction false} PickedRises(rest: seq<nat>, idx: seq<nat>)
    requires Rising(rest) && Rising(idx) && Within(idx, |rest|)
    ensures Rising(Picked(rest, idx)) && Elems(Picked(rest, idx)) <= Elems(rest)
  {}

  ghost predicate SameMembers(xs: seq<nat>, members: set<nat>) {
    forall p: nat :: p in xs <==> p in members
  }

  lemma {:induction false} FilterMembers(n: nat, chosen: set<nat>)
    ensures var f := Filter(n, chosen);
            Rising(f) && forall p: nat :: p in f <==> p < n && p in chosen
  {
    if n == 0 {
    } else {
      FilterMembers(n - 1, chosen);
      var f := Filter(n - 1, chosen);
      forall j | 0 <= j < |f| ensures f[j] < n - 1 { assert f[j] in f; }
    }
  }

  lemma {:induction false} FilterIs(n: nat, chosen: set<nat>)
    requires Under(chosen, n)
    ensures var f := Filter(n, chosen);
            Rising(f) && |f| == |chosen| && SameMembers(f, chosen)
  {
    FilterMembers(n, chosen);
    CountRising(Filter(n, chosen));
    assert Elems(Filter(n, chosen)) == chosen;
  }

  ghost predicate Under(chosen: set<nat>, n: nat) {
    forall p :: p in chosen ==> p < n
  }

  lemma {:induction false} CountRising(xs: seq<nat>)
    requires Rising(xs)
    ensures |Elems(xs)| == |xs|
  {
    if xs == [] {
    } else {
      var n := |xs| - 1;
      var front := xs[..n];
      CountRising(front);
      forall j | 0 <= j < n ensures front[j] != xs[n] { assert xs[j] < xs[n]; }
      assert xs[n] !in Elems(front);
      SplitLast(xs);
    }
  }

  lemma {:induction false} SplitLast(xs: seq<nat>)
    requires xs != []
    ensures Elems(xs) == Elems(xs[..|xs| - 1]) + {xs[|xs| - 1]}
  {
    var n := |xs| - 1;
    assert xs == xs[..n] + [xs[n]];
  }

  /** Exactly cap rows are kept, in their original order; every priority row is among them when
      fewer than cap have priority, and nothing but the first cap of them otherwise. */
  lemma {:induction false} KeptIsExact(flags: seq<bool>, cap: nat)
    requires |flags| > cap
    ensures var kept := Kept(flags, cap);
            && |kept| == cap && Rising(kept) && Within(kept, |flags|)
            && PriorityFirst(flags, cap, kept)
  {
    if |Positions(flags, true)| < cap {
      TopUpIsExact(flags, cap);
    } else {
      PositionsRise(flags, true);
    }
  }

  /** What the top-up chooses: all of keep, and a sample of the rest. */
  function Chosen(flags: seq<bool>, cap: nat): set<nat>
    requires |flags| > cap > |Positions(flags, true)|
  {
    PositionsPartition(flags);
    Elems(Positions(flags, true)) + Elems(Sampled(Positions(flags, false), cap - |Positions(flags, true)|))
  }

  lemma {:induction false} TopUpIsExact(flags: seq<bool>, cap: nat)
    requires |flags| > cap > |Positions(flags, true)|
    ensures var kept := Kept(flags, cap);
            && |kept| == cap && Rising(kept) && Within(kept, |flags|)
            && forall p: nat :: p < |flags| && flags[p] ==> p in kept
  {
    var chosen := Chosen(flags, cap);
    ChosenAre(flags, cap);
    FilterIs(|flags|, chosen);
    FilteredKeeps(flags, Positions(flags, true), chosen);
  }

  lemma {:induction false} ChosenAre(flags: seq<bool>, cap: nat)
    requires |flags| > cap > |Positions(flags, true)|
    ensures Under(Chosen(flags, cap), |flags|) && |Chosen(flags, cap)| == cap
    ensures Flagged(Positions(flags, true), flags, true)
  {
    var keep, rest := Positions(flags, true), Positions(flags, false);
    PositionsAre(flags, true);
    PositionsAre(flags, false);
    PositionsRise(flags, true);
    PositionsRise(flags, false);
    PositionsPartition(flags);
    var idx := Indices(|rest|, cap - |keep|);
    IndicesRise(|rest|, cap - |keep|);
    PickedRises(rest, idx);
    UnionSize(keep, rest, Picked(rest, idx), flags);
  }

  /** The places left over go to the low-priority rows at floor(i * |rest| / places). */
  lemma {:induction false} SamplesAreEvenlySpaced(flags: seq<bool>, cap: nat, i: nat)
    requires |flags| > cap > |Positions(flags, true)|
    requires i < cap - |Positions(flags, true)|
    ensures |Positions(flags, false)| > cap - |Positions(flags, true)|
    ensures var rest, places := Positions(flags, false), cap - |Positions(flags, true)|;
            SampleIndex(i, |rest|, places) < |rest| && rest[SampleIndex(i, |rest|, places)] in Kept(flags, cap)
  {
    PositionsPartition(flags);
    var rest, places := Positions(flags, false), cap - |Positions(flags, true)|;
    SampleIndexIsBelow(i, |rest|, places);
    IndexIsExact(i, |rest|, places);
    PickIsKept(flags, cap, i);
  }

  lemma {:induction false} PickIsKept(flags: seq<bool>, cap: nat, i: nat)
    requires |flags| > cap > |Positions(flags, true)|
    requires |Positions(flags, false)| > cap - |Positions(flags, true)| > i
    ensures var rest := Positions(flags, false);
            rest[Indices(|rest|, cap - |Positions(flags, true)|)[i]] in Kept(flags, cap)
  {
    var rest, places := Positions(flags, false), cap - |Positions(flags, true)|;
    var p := rest[Indices(|rest|, places)[i]];
    PositionsRise(flags, false);
    assert Sampled(rest, places)[i] == p;
    assert p in Chosen(flags, cap);
    FilterMembers(|flags|, Chosen(flags, cap));
  }

  lemma {:induction false} FilteredKeeps(flags: seq<bool>, keep: seq<nat>, chosen: set<nat>)
    requires Under(chosen, |flags|) && Elems(keep) <= chosen
    requires Flagged(keep, flags, true)
    requires SameMembers(Filter(|flags|, chosen), chosen)
    ensures var kept := Filter(|flags|, chosen);
            Within(kept, |flags|) && forall p: nat :: p < |flags| && flags[p] ==> p in kept
  {
    var kept := Filter(|flags|, chosen);
    forall j | 0 <= j < |kept| ensures kept[j] < |flags| { assert kept[j] in kept; }
    forall p: nat | p < |flags| && flags[p] ensures p in kept { assert p in Elems(keep); }
  }

  lemma {:induction false} UnionSize(keep: seq<nat>, rest: seq<nat>, sampled: seq<nat>, flags: seq<bool>)
    requires Rising(keep) && Rising(sampled) && Elems(sampled) <= Elems(rest)
    requires Flagged(keep, flags, true) && Flagged(rest, flags, false)
    ensures var chosen := Elems(keep) + Elems(sampled);
            |chosen| == |keep| + |sampled| && Under(chosen, |flags|)
  {
    CountRising(keep);
    CountRising(sampled);
    forall p | p in Elems(sampled) ensures p < |flags| && !flags[p] { assert p in Elems(rest); }
    assert Elems(keep) !! Elems(sampled);
  }
}
