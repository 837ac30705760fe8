/** The robust onset-step effect size (sentinel/tools/stats.py), over exact reals. */
module OnsetStats {
  import opened Common
  import opened Sorting

  const MAD_SCALE: real := 1.4826
  const ALIGN_RATIO: real := 1.25
  const ALIGN_DEMOTE: real := 0.25

  predicate RealLeq(a: real, b: real) {
    a <= b
  }

  function Abs(x: real): real {
    if x < 0.0 then -x else x
  }

  function Median(vals: seq<real>): real {
    MiddleOf(Sort(vals, RealLeq))
  }

  /** The middle of a sorted list; zero when there is none. */
  function MiddleOf(s: seq<real>): real {
    var n := |s|;
    if n == 0 then 0.0 else if n % 2 == 1 then s[n / 2] else (s[n / 2 - 1] + s[n / 2]) / 2.0
  }

  function Deviations(vals: seq<real>, m: real): seq<real> {
    seq(|vals|, i requires 0 <= i < |vals| => Abs(vals[i] - m))
  }

  function MadSigma(vals: seq<real>): real {
    MAD_SCALE * Median(Deviations(vals, Median(vals)))
  }

  function Denominator(pre: seq<real>, madEps: real): real {
    MaxReal(MaxReal(MadSigma(pre), madEps), 0.01 * Abs(Median(pre)))
  }

  /** The step across a placebo split inside the baseline, or zero if the split is too lopsided. */
  function PlaceboAt(pre: seq<real>, cut: int, madEps: real): real
    requires madEps > 0.0
  {
    if 4 <= cut <= |pre| - 4 then
      Abs(Median(pre[cut..]) - Median(pre[..cut])) / Denominator(pre[..cut], madEps)
    else 0.0
  }

  function Placebo(pre: seq<real>, madEps: real): real
    requires madEps > 0.0
  {
    var third := |pre| / 3;
    MaxReal(MaxReal(0.0, PlaceboAt(pre, third, madEps)), PlaceboAt(pre, 2 * third, madEps))
  }

  /** Does a positive step clear the absolute or the relative floor? */
  predicate ClearsFloor(delta: real, preMed: real, dAbs: real, dRel: real) {
    delta >= dAbs || (preMed > 0.0 && delta >= dRel * preMed)
  }

  /** A step that the baseline's own placebo steps match is demoted, not erased. */
  function Aligned(z: real, placebo: real): real {
    if placebo != 0.0 && z <= ALIGN_RATIO * placebo then z * ALIGN_DEMOTE else z
  }

  function LevelZ(pre: seq<real>, post: seq<real>, madEps: real, dAbs: real, dRel: real): real
    requires madEps > 0.0
  {
    var delta := Median(post) - Median(pre);
    if |pre| < 4 || post == [] then 0.0
    else if delta <= 0.0 || !ClearsFloor(delta, Median(pre), dAbs, dRel) then 0.0
    else Aligned(delta / Denominator(pre, madEps), Placebo(pre, madEps))
  }

  function Diffs(vals: seq<real>): seq<real> {
    if |vals| < 2 then [] else seq(|vals| - 1, i requires 0 <= i < |vals| - 1 => vals[i + 1] - vals[i])
  }

  datatype Floors = Floors(madEps: real, dAbs: real, dRel: real)

  datatype Metric = ErrorRate | LatencyP95 | LatencyP50 | Cpu | Memory | OtherError | OtherLatency | OtherResource

  /** The per-metric floors, else those of the metric's family. */
  function FloorsOf(m: Metric): (f: Floors)
    ensures f.madEps > 0.0
  {
    match m
    case ErrorRate => Floors(0.002, 0.01, 0.5)
    case LatencyP95 => Floors(2.0, 15.0, 0.15)
    case LatencyP50 => Floors(1.0, 10.0, 0.15)
    case Cpu => Floors(0.01, 0.03, 0.15)
    case Memory => Floors(5.0, 20.0, 0.10)
    case OtherError => Floors(0.002, 0.01, 0.5)
    case OtherLatency => Floors(2.0, 15.0, 0.15)
    case OtherResource => Floors(0.000000001, 0.0, 0.15)
  }

  /** The level pass, and the slope pass over first differences when there are enough samples. */
  function StepZ(pre: seq<real>, post: seq<real>, metric: Metric): real {
    var f := FloorsOf(metric);
    var level := LevelZ(pre, post, f.madEps, f.dAbs, f.dRel);
    if |pre| >= 6 && |post| >= 3 then
      MaxReal(level, LevelZ(Diffs(pre), Diffs(post), f.madEps / 10.0, 0.0, 0.0))
    else level
  }

  // ----- sorting reals -----------------------------------------------------------------------

  lemma {:induction false} RealLeqIsTotal()
    ensures TotalPreorder(RealLeq)
  {}

  ghost predicate Below(a: seq<real>, b: seq<real>) {
    |a| == |b| && forall i :: 0 <= i < |a| ==> a[i] <= b[i]
  }

  lemma {:induction false} InsertHead(s: seq<real>)
    requires s != [] && SortedBy(s, RealLeq)
    ensures Insert(s[0], s[1..], RealLeq) == s
  {
    if |s| > 1 { assert RealLeq(s[0], s[1]); }
  }

  lemma {:induction false} BelowCons(x: real, s: seq<real>, y: real, t: seq<real>)
    requires x <= y && Below(s, t)
    ensures Below([x] + s, [y] + t)
  {}

  lemma {:induction false} BelowTails(s: seq<real>, t: seq<real>)
    requires Below(s, t) && s != []
    ensures s[0] <= t[0] && Below(s[1..], t[1..])
    ensures SortedBy(s, RealLeq) ==> SortedBy(s[1..], RealLeq)
    ensures SortedBy(t, RealLeq) ==> SortedBy(t[1..], RealLeq)
  {}

  lemma {:induction false} InsertMonotone(x: real, s: seq<real>, y: real, t: seq<real>)
    requires x <= y && Below(s, t) && SortedBy(s, RealLeq) && SortedBy(t, RealLeq)
    ensures Below(Insert(x, s, RealLeq), Insert(y, t, RealLeq))
    decreases |s|
  {
    if s == [] {
    } else {
      BelowTails(s, t);
      if x <= s[0] && y <= t[0] {
        BelowCons(x, s, y, t);
      } else if x <= s[0] {
        InsertHead(s);
        InsertMonotone(s[0], s[1..], y, t[1..]);
        BelowCons(x, s, t[0], Insert(y, t[1..], RealLeq));
      } else if y <= t[0] {
        InsertHead(t);
        InsertMonotone(x, s[1..], t[0], t[1..]);
        BelowCons(s[0], Insert(x, s[1..], RealLeq), y, t);
      } else {
        InsertMonotone(x, s[1..], y, t[1..]);
        BelowCons(s[0], Insert(x, s[1..], RealLeq), t[0], Insert(y, t[1..], RealLeq));
      }
    }
  }

  lemma {:induction false} SortMonotone(a: seq<real>, b: seq<real>)
    requires Below(a, b)
    ensures Below(Sort(a, RealLeq), Sort(b, RealLeq))
  {
    if a == [] {
    } else {
      SortMonotone(a[1..], b[1..]);
      RealLeqIsTotal();
      SortSorts(a[1..], RealLeq);
      SortSorts(b[1..], RealLeq);
      InsertMonotone(a[0], Sort(a[1..], RealLeq), b[0], Sort(b[1..], RealLeq));
    }
  }

  lemma {:induction false} SmallestFirst(s: seq<real>, x: real)
    requires SortedBy(s, RealLeq) && x in multiset(s)
    ensures s != [] && s[0] <= x
  {
    var i :| 0 <= i < |s| && s[i] == x;
    if i > 0 { assert RealLeq(s[0], s[i]); }
  }

  lemma {:induction false} SortedIsUnique(s: seq<real>, t: seq<real>)
    requires SortedBy(s, RealLeq) && SortedBy(t, RealLeq) && multiset(s) == multiset(t)
    ensures s == t
    decreases |s|
  {
    if s == [] || t == [] {
      assert |s| == |multiset(s)| == |multiset(t)| == |t|;
    } else {
      SmallestFirst(t, s[0]);
      SmallestFirst(s, t[0]);
      TailMultiset(s);
      TailMultiset(t);
      SortedIsUnique(s[1..], t[1..]);
    }
  }

  lemma {:induction false} TailMultiset(s: seq<real>)
    requires s != []
    ensures multiset(s[1..]) == multiset(s) - multiset{s[0]}
    ensures s == [s[0]] + s[1..]
  {
    HeadMultiset(s);
  }

  lemma {:induction false} MedianOfPermutation(a: seq<real>, b: seq<real>)
    requires multiset(a) == multiset(b)
    ensures Median(a) == Median(b)
  {
    RealLeqIsTotal();
    SortSorts(a, RealLeq);
    SortSorts(b, RealLeq);
    SortPermutes(a, RealLeq);
    SortPermutes(b, RealLeq);
    SortedIsUnique(Sort(a, RealLeq), Sort(b, RealLeq));
  }

  lemma {:induction false} MedianMonotone(a: seq<real>, b: seq<real>)
    requires Below(a, b)
    ensures Median(a) <= Median(b)
  {
    SortMonotone(a, b);
  }

  function CountAbove(vals: seq<real>, m: real): nat {
    if vals == [] then 0 else (if vals[0] > m then 1 else 0) + CountAbove(vals[1..], m)
  }

  lemma {:induction false} InsertCounts(x: real, s: seq<real>, m: real)
    ensures CountAbove(Insert(x, s, RealLeq), m) == CountAbove(s, m) + if x > m then 1 else 0
  {
    if s != [] && !(x <= s[0]) {
      InsertCounts(x, s[1..], m);
      assert Insert(x, s, RealLeq)[1..] == Insert(x, s[1..], RealLeq);
    } else {
      assert Insert(x, s, RealLeq)[1..] == s;
    }
  }

  lemma {:induction false} SortCounts(vals: seq<real>, m: real)
    ensures CountAbove(Sort(vals, RealLeq), m) == CountAbove(vals, m)
  {
    if vals == [] {
    } else {
      SortCounts(vals[1..], m);
      InsertCounts(vals[0], Sort(vals[1..], RealLeq), m);
    }
  }

  lemma {:induction false} TailAbove(s: seq<real>, m: real, k: nat)
    requires SortedBy(s, RealLeq) && k < |s| && s[k] > m
    ensures CountAbove(s, m) >= |s| - k
  {
    if k > 0 {
      TailAbove(s[1..], m, k - 1);
    } else if |s| > 1 {
      assert RealLeq(s[0], s[1]);
      TailAbove(s[1..], m, 0);
    }
  }

  /** A minority of samples above m leaves the median at or below it. */
  lemma {:induction false} MinorityCannotLiftMedian(vals: seq<real>, m: real)
    requires vals != [] && 2 * CountAbove(vals, m) < |vals|
    ensures Median(vals) <= m
  {
    var s := Sort(vals, RealLeq);
    RealLeqIsTotal();
    SortSorts(vals, RealLeq);
    SortPermutes(vals, RealLeq);
    SortCounts(vals, m);
    var n := |s|;
    if s[n / 2] > m { TailAbove(s, m, n / 2); }
    if n % 2 == 0 { assert RealLeq(s[n / 2 - 1], s[n / 2]); }
  }

  // ----- the effect size ------------------------------------------------------------------------

  lemma {:induction false} QuotientMonotone(a: real, b: real, d: real)
    requires 0.0 <= a <= b && d > 0.0
    ensures 0.0 <= a / d <= b / d
  {
    var x, y := a / d, b / d;
    assert x * d == a && y * d == b;
    SignOfFactor(x, d);
    assert (y - x) * d == b - a;
    SignOfFactor(y - x, d);
  }

  lemma {:induction false} SignOfFactor(x: real, d: real)
    requires d > 0.0 && x * d >= 0.0
    ensures x >= 0.0
  {}

  lemma {:induction false} AlignedMonotone(z: real, w: real, placebo: real)
    requires 0.0 <= z <= w
    ensures 0.0 <= Aligned(z, placebo) <= Aligned(w, placebo)
  {}

  lemma {:induction false} FloorMonotone(delta: real, bigger: real, preMed: real, dAbs: real, dRel: real)
    requires delta <= bigger && ClearsFloor(delta, preMed, dAbs, dRel)
    ensures ClearsFloor(bigger, preMed, dAbs, dRel)
  {}

  /** The effect size is never negative. */
  lemma {:induction false} LevelZNonNegative(pre: seq<real>, post: seq<real>, madEps: real, dAbs: real, dRel: real)
    requires madEps > 0.0
    ensures LevelZ(pre, post, madEps, dAbs, dRel) >= 0.0
  {
    var delta := Median(post) - Median(pre);
    if delta > 0.0 {
      QuotientMonotone(delta, delta, Denominator(pre, madEps));
      var z := delta / Denominator(pre, madEps);
      AlignedMonotone(z, z, Placebo(pre, madEps));
    }
  }

  /** The order of the post-onset samples does not matter. */
  lemma {:induction false} LevelZIgnoresOrder(
      pre: seq<real>, post: seq<real>, post': seq<real>, madEps: real, dAbs: real, dRel: real)
    requires madEps > 0.0 && multiset(post) == multiset(post')
    ensures LevelZ(pre, post, madEps, dAbs, dRel) == LevelZ(pre, post', madEps, dAbs, dRel)
  {
    MedianOfPermutation(post, post');
    assert |post| == |multiset(post)| == |multiset(post')| == |post'|;
  }

  /** Raising post-onset samples never lowers the effect size, across floors and demotion alike. */
  lemma {:induction false} LevelZMonotone(
      pre: seq<real>, post: seq<real>, post': seq<real>, madEps: real, dAbs: real, dRel: real)
    requires madEps > 0.0 && Below(post, post')
    ensures LevelZ(pre, post, madEps, dAbs, dRel) <= LevelZ(pre, post', madEps, dAbs, dRel)
  {
    MedianMonotone(post, post');
    LevelZNonNegative(pre, post', madEps, dAbs, dRel);
    var delta, delta' := Median(post) - Median(pre), Median(post') - Median(pre);
    if delta > 0.0 && ClearsFloor(delta, Median(pre), dAbs, dRel) {
      FloorMonotone(delta, delta', Median(pre), dAbs, dRel);
      var d := Denominator(pre, madEps);
      QuotientMonotone(delta, delta', d);
      AlignedMonotone(delta / d, delta' / d, Placebo(pre, madEps));
    }
  }

  /** Unless at least half of the post-onset samples exceed the baseline median, there is no step. */
  lemma {:induction false} MinorityIsNoStep(pre: seq<real>, post: seq<real>, madEps: real, dAbs: real, dRel: real)
    requires madEps > 0.0 && 2 * CountAbove(post, Median(pre)) < |post|
    ensures LevelZ(pre, post, madEps, dAbs, dRel) == 0.0
  {
    MinorityCannotLiftMedian(post, Median(pre));
  }

  /** There is a step exactly when the samples suffice and the medians rise past a floor; the
      placebo check scales it down to a quarter at most, never to nothing. */
  lemma {:induction false} LevelZPositiveIff(pre: seq<real>, post: seq<real>, madEps: real, dAbs: real, dRel: real)
    requires madEps > 0.0
    ensures var delta := Median(post) - Median(pre);
            var z := LevelZ(pre, post, madEps, dAbs, dRel);
            && (z > 0.0 <==> |pre| >= 4 && post != [] && delta > 0.0 && ClearsFloor(delta, Median(pre), dAbs, dRel))
            && (z > 0.0 ==> var whole := delta / Denominator(pre, madEps);
                            (if whole <= 1.25 * Placebo(pre, madEps) then z == whole / 4.0 else z == whole))
  {
    var delta, d := Median(post) - Median(pre), Denominator(pre, madEps);
    PlaceboNonNegative(pre, madEps);
    if delta > 0.0 {
      QuotientPositive(delta, d);
      AlignedIs(delta / d, Placebo(pre, madEps));
    }
  }

  lemma {:induction false} AlignedIs(z: real, placebo: real)
    requires z > 0.0 && placebo >= 0.0
    ensures Aligned(z, placebo) == (if z <= 1.25 * placebo then z / 4.0 else z) > 0.0
  {}

  lemma {:induction false} QuotientPositive(a: real, d: real)
    requires a > 0.0 && d > 0.0
    ensures a / d > 0.0
  {
    var q := a / d;
    assert q * d == a;
    if q <= 0.0 { SignOfFactor(-q, d); }
  }

  lemma {:induction false} PlaceboNonNegative(pre: seq<real>, madEps: real)
    requires madEps > 0.0
    ensures Placebo(pre, madEps) >= 0.0
  {}

  lemma {:induction false} FlatMedian(vals: seq<real>, v: real)
    requires vals != [] && Flat(vals, v)
    ensures Median(vals) == v
  {
    SortMembers(vals, RealLeq);
    SortPermutes(vals, RealLeq);
    var s := Sort(vals, RealLeq);
    forall i | 0 <= i < |s| ensures s[i] == v { assert s[i] in s; }
  }

  lemma {:induction false} FlatSigma(vals: seq<real>, v: real)
    requires vals != [] && Flat(vals, v)
    ensures MadSigma(vals) == 0.0
  {
    FlatMedian(vals, v);
    FlatMedian(Deviations(vals, v), 0.0);
  }

  lemma {:induction false} FlatPlacebo(vals: seq<real>, v: real, cut: int, madEps: real)
    requires madEps > 0.0 && vals != [] && Flat(vals, v)
    ensures PlaceboAt(vals, cut, madEps) == 0.0
  {
    if 4 <= cut <= |vals| - 4 {
      FlatMedian(vals[..cut], v);
      FlatMedian(vals[cut..], v);
    }
  }

  ghost predicate Flat(vals: seq<real>, v: real) {
    forall i :: 0 <= i < |vals| ==> vals[i] == v
  }

  /** Over a flat baseline at v a rise of the median measures that rise in units of the larger of
      the metric's noise floor and one percent of v. */
  lemma {:induction false} StepOverFlatBaseline(
      pre: seq<real>, post: seq<real>, v: real, madEps: real, dAbs: real, dRel: real)
    requires madEps > 0.0 && |pre| >= 4 && Flat(pre, v) && post != []
    requires Median(post) > v && ClearsFloor(Median(post) - v, v, dAbs, dRel)
    ensures LevelZ(pre, post, madEps, dAbs, dRel) == (Median(post) - v) / MaxReal(madEps, 0.01 * Abs(v))
  {
    FlatMedian(pre, v);
    FlatSigma(pre, v);
    FlatPlacebo(pre, v, |pre| / 3, madEps);
    FlatPlacebo(pre, v, 2 * (|pre| / 3), madEps);
  }

  // ----- counting and the median -----------------------------------------------------------------

  lemma {:induction false} CountAboveOne(vals: seq<real>, m: real, k: int)
    requires forall i :: 0 <= i < |vals| && i != k ==> vals[i] <= m
    ensures CountAbove(vals, m) <= if 0 <= k < |vals| then 1 else 0
  {
    if vals == [] {
    } else {
      CountAboveOne(vals[1..], m, k - 1);
    }
  }

  lemma {:induction false} CountAboveAllButOne(vals: seq<real>, m: real, k: int)
    requires forall i :: 0 <= i < |vals| && i != k ==> vals[i] > m
    ensures CountAbove(vals, m) >= if 0 <= k < |vals| then |vals| - 1 else |vals|
  {
    if vals == [] {
    } else {
      CountAboveAllButOne(vals[1..], m, k - 1);
    }
  }

  lemma {:induction false} HeadNotAbove(s: seq<real>, m: real, k: nat)
    requires SortedBy(s, RealLeq) && k < |s| && s[k] <= m
    ensures CountAbove(s, m) <= |s| - 1 - k
  {
    assert k > 0 ==> RealLeq(s[0], s[k]);
    CountAboveAtMost(s[1..], m);
    if k > 0 { HeadNotAbove(s[1..], m, k - 1); }
  }

  lemma {:induction false} CountAboveAtMost(vals: seq<real>, m: real)
    ensures CountAbove(vals, m) <= |vals|
  {
    if vals == [] {
    } else {
      CountAboveAtMost(vals[1..], m);
    }
  }

  /** With at least three samples, of which all but one lie above every number below m, the median
      is at least m. */
  lemma {:induction false} OneCannotLowerMedian(vals: seq<real>, m: real, k: int)
    requires |vals| >= 3 && forall i :: 0 <= i < |vals| && i != k ==> vals[i] >= m
    ensures Median(vals) >= m
  {
    var s := Sort(vals, RealLeq);
    RealLeqIsTotal();
    SortSorts(vals, RealLeq);
    SortPermutes(vals, RealLeq);
    if s[1] < m {
      CountAboveAllButOne(vals, s[1], k);
      SortCounts(vals, s[1]);
      HeadNotAbove(s, s[1], 1);
    }
    FromSecond(s, m);
  }

  lemma {:induction false} FromSecond(s: seq<real>, m: real)
    requires |s| >= 3 && SortedBy(s, RealLeq) && s[1] >= m
    ensures MiddleOf(s) >= m
  {
    forall i | 1 <= i < |s| ensures s[i] >= m { assert i == 1 || RealLeq(s[1], s[i]); }
  }

  lemma {:induction false} MedianOfTwo(a: real, b: real)
    ensures Median([a, b]) == (a + b) / 2.0
  {
    var s := [a, b];
    assert s[1..] == [b] && [b][1..] == [];
    assert Sort([b], RealLeq) == Insert(b, [], RealLeq);
    assert Sort(s, RealLeq) == Insert(a, [b], RealLeq);
    if a > b { assert Insert(a, [b], RealLeq) == [b] + Insert(a, [], RealLeq); }
  }

  // ----- what the pieces measure -------------------------------------------------------------------

  lemma {:induction false} MajorityLiftsMedian(vals: seq<real>, m: real)
    requires 2 * CountAbove(vals, m) > |vals|
    ensures Median(vals) > m
  {
    RealLeqIsTotal();
    SortSorts(vals, RealLeq);
    SortPermutes(vals, RealLeq);
    SortCounts(vals, m);
    SortedMajority(Sort(vals, RealLeq), m);
  }

  lemma {:induction false} SortedMajority(s: seq<real>, m: real)
    requires SortedBy(s, RealLeq) && 2 * CountAbove(s, m) > |s|
    ensures MiddleOf(s) > m
  {
    var k := (|s| - 1) / 2;
    if s[k] <= m { HeadNotAbove(s, m, k); }
    if |s| % 2 == 0 { assert RealLeq(s[k], s[k + 1]); }
  }

  function CountBelow(vals: seq<real>, m: real): nat {
    if vals == [] then 0 else (if vals[0] < m then 1 else 0) + CountBelow(vals[1..], m)
  }

  lemma {:induction false} InsertCountsBelow(x: real, s: seq<real>, m: real)
    ensures CountBelow(Insert(x, s, RealLeq), m) == CountBelow(s, m) + if x < m then 1 else 0
  {
    if s != [] && !(x <= s[0]) {
      InsertCountsBelow(x, s[1..], m);
      assert Insert(x, s, RealLeq)[1..] == Insert(x, s[1..], RealLeq);
    } else {
      assert Insert(x, s, RealLeq)[1..] == s;
    }
  }

  lemma {:induction false} SortCountsBelow(vals: seq<real>, m: real)
    ensures CountBelow(Sort(vals, RealLeq), m) == CountBelow(vals, m)
  {
    if vals == [] {
    } else {
      SortCountsBelow(vals[1..], m);
      InsertCountsBelow(vals[0], Sort(vals[1..], RealLeq), m);
    }
  }

  lemma {:induction false} TailNotBelow(s: seq<real>, m: real, k: nat)
    requires SortedBy(s, RealLeq) && k < |s| && s[k] >= m
    ensures CountBelow(s, m) <= k
  {
    if k > 0 {
      TailNotBelow(s[1..], m, k - 1);
    } else if |s| > 1 {
      assert RealLeq(s[0], s[1]);
      TailNotBelow(s[1..], m, 0);
    }
  }

  /** A majority of samples below m keeps the median below it. */
  lemma {:induction false} MajorityLowersMedian(vals: seq<real>, m: real)
    requires 2 * CountBelow(vals, m) > |vals|
    ensures Median(vals) < m
  {
    RealLeqIsTotal();
    SortSorts(vals, RealLeq);
    SortPermutes(vals, RealLeq);
    SortCountsBelow(vals, m);
    SortedMajorityBelow(Sort(vals, RealLeq), m);
  }

  lemma {:induction false} SortedMajorityBelow(s: seq<real>, m: real)
    requires SortedBy(s, RealLeq) && 2 * CountBelow(s, m) > |s|
    ensures MiddleOf(s) < m
  {
    var k := |s| / 2;
    if s[k] >= m { TailNotBelow(s, m, k); }
    if |s| % 2 == 0 { assert RealLeq(s[k - 1], s[k]); }
  }

  /** No more than half of the samples lie above the median, and no more than half below it. */
  lemma {:induction false} MedianIsMiddle(vals: seq<real>)
    ensures 2 * CountAbove(vals, Median(vals)) <= |vals| && 2 * CountBelow(vals, Median(vals)) <= |vals|
  {
    if 2 * CountAbove(vals, Median(vals)) > |vals| { MajorityLiftsMedian(vals, Median(vals)); }
    if 2 * CountBelow(vals, Median(vals)) > |vals| { MajorityLowersMedian(vals, Median(vals)); }
  }

  /** Of samples in order it is the one in the middle, or the mean of the two. */
  lemma {:induction false} MedianOfSorted(vals: seq<real>)
    requires vals != [] && forall i, j :: 0 <= i < j < |vals| ==> vals[i] <= vals[j]
    ensures var n := |vals|;
            Median(vals) == if n % 2 == 1 then vals[n / 2] else (vals[n / 2 - 1] + vals[n / 2]) / 2.0
  {
    RealLeqIsTotal();
    SortSorts(vals, RealLeq);
    SortPermutes(vals, RealLeq);
    SortedIsUnique(Sort(vals, RealLeq), vals);
  }

  /** How many samples lie farther from c than d, or nearer to it. */
  function Farther(vals: seq<real>, c: real, d: real): nat {
    if vals == [] then 0 else (if vals[0] > c + d || vals[0] < c - d then 1 else 0) + Farther(vals[1..], c, d)
  }

  function Nearer(vals: seq<real>, c: real, d: real): nat {
    if vals == [] then 0 else (if c - d < vals[0] < c + d then 1 else 0) + Nearer(vals[1..], c, d)
  }

  lemma {:induction false} DeviationsCount(vals: seq<real>, c: real, d: real)
    requires d >= 0.0
    ensures CountAbove(Deviations(vals, c), d) == Farther(vals, c, d)
    ensures CountBelow(Deviations(vals, c), d) == Nearer(vals, c, d)
  {
    if vals == [] {
    } else {
      DeviationsCount(vals[1..], c, d);
      assert Deviations(vals, c)[1..] == Deviations(vals[1..], c);
    }
  }

  lemma {:induction false} DeviationsNonNegative(vals: seq<real>, c: real)
    ensures Median(Deviations(vals, c)) >= 0.0
  {
    var devs := Deviations(vals, c);
    if vals != [] && Median(devs) < 0.0 {
      NoneBelow(devs, 0.0);
      MedianIsMiddle(devs);
      AllAbove(devs, Median(devs));
    }
  }

  lemma {:induction false} NoneBelow(vals: seq<real>, m: real)
    requires forall i :: 0 <= i < |vals| ==> vals[i] >= m
    ensures CountBelow(vals, m) == 0
  {
    if vals != [] { NoneBelow(vals[1..], m); }
  }

  lemma {:induction false} AllAbove(vals: seq<real>, m: real)
    requires forall i :: 0 <= i < |vals| ==> vals[i] > m
    ensures CountAbove(vals, m) == |vals|
  {
    if vals != [] { AllAbove(vals[1..], m); }
  }

  /** The spread is 1.4826 times a distance from the median that no more than half of the samples
      exceed and no more than half stay under. */
  lemma {:induction false} MadIsMiddleDistance(vals: seq<real>) returns (d: real)
    ensures d >= 0.0 && MadSigma(vals) == 1.4826 * d
    ensures 2 * Farther(vals, Median(vals), d) <= |vals| && 2 * Nearer(vals, Median(vals), d) <= |vals|
  {
    d := Median(Deviations(vals, Median(vals)));
    DeviationsNonNegative(vals, Median(vals));
    MedianIsMiddle(Deviations(vals, Median(vals)));
    DeviationsCount(vals, Median(vals), d);
  }

  /** A rise is measured in the greatest of the spread, the metric's noise floor and a hundredth of
      the level. */
  lemma {:induction false} DenominatorIs(pre: seq<real>, madEps: real)
    ensures var d, level := Denominator(pre, madEps), if Median(pre) < 0.0 then -Median(pre) else Median(pre);
            && d >= MadSigma(pre) && d >= madEps && d >= level / 100.0
            && (d == MadSigma(pre) || d == madEps || d == level / 100.0)
  {}

  /** The step across the baseline split at cut, up or down, in units of its first part. */
  ghost predicate SplitStep(pre: seq<real>, cut: nat, madEps: real, z: real)
    requires madEps > 0.0
  {
    && 4 <= cut <= |pre| - 4
    && var (before, after) := (Median(pre[..cut]), Median(pre[cut..]));
       z == (if after > before then after - before else before - after) / Denominator(pre[..cut], madEps)
  }

  /** The placebo is the greater of the baseline's own steps at its thirds, or nothing if it is too
      short to be split there. */
  lemma {:induction false} PlaceboIsTheGreaterStep(pre: seq<real>, madEps: real)
    requires madEps > 0.0
    ensures var z, third := Placebo(pre, madEps), |pre| / 3;
            && z >= 0.0
            && (z > 0.0 ==> SplitStep(pre, third, madEps, z) || SplitStep(pre, 2 * third, madEps, z))
            && forall y :: SplitStep(pre, third, madEps, y) || SplitStep(pre, 2 * third, madEps, y) ==> y <= z
  {
    var third := |pre| / 3;
    SplitIs(pre, third, madEps);
    SplitIs(pre, 2 * third, madEps);
  }

  lemma {:induction false} SplitIs(pre: seq<real>, cut: nat, madEps: real)
    requires madEps > 0.0
    ensures if 4 <= cut <= |pre| - 4 then forall z :: SplitStep(pre, cut, madEps, z) <==> z == PlaceboAt(pre, cut, madEps)
            else PlaceboAt(pre, cut, madEps) == 0.0
  {}

  // ----- what each metric takes to be noticed ----------------------------------------------------------

  /** Over a flat baseline at v, a rise by delta is noticed, with an effect size of 3 or more. */
  predicate Noticed(metric: Metric, v: real, delta: real) {
    var hundredth := (if v < 0.0 then -v else v) / 100.0;
    match metric
    case ErrorRate => delta >= 0.006 && delta >= 3.0 * hundredth && (delta >= 0.01 || (v > 0.0 && delta >= v / 2.0))
    case LatencyP95 => delta >= 6.0 && delta >= 3.0 * hundredth && (delta >= 15.0 || (v > 0.0 && delta >= 0.15 * v))
    case LatencyP50 => delta >= 3.0 && delta >= 3.0 * hundredth && (delta >= 10.0 || (v > 0.0 && delta >= 0.15 * v))
    case Cpu => delta >= 0.03 && delta >= 3.0 * hundredth
    case Memory => delta >= 15.0 && delta >= 3.0 * hundredth && (delta >= 20.0 || (v > 0.0 && delta >= v / 10.0))
    case OtherError => delta >= 0.006 && delta >= 3.0 * hundredth && (delta >= 0.01 || (v > 0.0 && delta >= v / 2.0))
    case OtherLatency => delta >= 6.0 && delta >= 3.0 * hundredth && (delta >= 15.0 || (v > 0.0 && delta >= 0.15 * v))
    case OtherResource => delta >= 0.000000003 && delta >= 3.0 * hundredth
  }

  lemma {:induction false} NoticedIff(pre: seq<real>, post: seq<real>, v: real, metric: Metric)
    requires |pre| >= 4 && Flat(pre, v) && post != []
    ensures var f := FloorsOf(metric);
            LevelZ(pre, post, f.madEps, f.dAbs, f.dRel) >= 3.0 <==> Noticed(metric, v, Median(post) - v)
  {
    var f := FloorsOf(metric);
    var delta := Median(post) - v;
    FlatMedian(pre, v);
    if delta > 0.0 && ClearsFloor(delta, v, f.dAbs, f.dRel) {
      StepOverFlatBaseline(pre, post, v, f.madEps, f.dAbs, f.dRel);
      ThreeUnits(delta, MaxReal(f.madEps, 0.01 * Abs(v)));
    }
  }

  lemma {:induction false} ThreeUnits(delta: real, unit: real)
    requires unit > 0.0
    ensures delta / unit >= 3.0 <==> delta >= 3.0 * unit
  {
    var z := delta / unit;
    assert z * unit == delta;
    assert (z - 3.0) * unit == delta - 3.0 * unit;
    if delta >= 3.0 * unit { SignOfFactor(z - 3.0, unit); }
    if z >= 3.0 { assert (z - 3.0) * unit >= 0.0; }
  }

  // ----- the slope pass ------------------------------------------------------------------------

  /** The reported step is the larger of the two passes. */
  lemma {:induction false} StepZCoversBoth(pre: seq<real>, post: seq<real>, metric: Metric)
    ensures var f := FloorsOf(metric);
            var level := LevelZ(pre, post, f.madEps, f.dAbs, f.dRel);
            var slope := LevelZ(Diffs(pre), Diffs(post), f.madEps / 10.0, 0.0, 0.0);
            if |pre| >= 6 && |post| >= 3 then
              StepZ(pre, post, metric) in {level, slope} && StepZ(pre, post, metric) >= MaxReal(level, slope)
            else StepZ(pre, post, metric) == level
  {}

  lemma {:induction false} FlatSlope(pre: seq<real>, v: real)
    requires |pre| >= 2 && Flat(pre, v)
    ensures Flat(Diffs(pre), 0.0) && |Diffs(pre)| == |pre| - 1
  {}

  /** A rise of the median difference by d after a flat baseline counts in tenths of the noise floor. */
  lemma {:induction false} SlopeOverFlatBaseline(pre: seq<real>, post: seq<real>, v: real, d: real, metric: Metric)
    requires |pre| >= 6 && Flat(pre, v) && |post| >= 3 && Median(Diffs(post)) == d > 0.0
    ensures StepZ(pre, post, metric) >= d / (FloorsOf(metric).madEps / 10.0)
  {
    FlatSlope(pre, v);
    StepZCoversBoth(pre, post, metric);
    StepOverFlatBaseline(Diffs(pre), Diffs(post), 0.0, FloorsOf(metric).madEps / 10.0, 0.0, 0.0);
  }

  /** A sustained slope of d is seen, whatever the level it starts from. */
  lemma {:induction false} RampIsSeen(pre: seq<real>, post: seq<real>, v: real, d: real, metric: Metric)
    requires |pre| >= 6 && Flat(pre, v) && |post| >= 3 && d > 0.0 && Flat(Diffs(post), d)
    ensures StepZ(pre, post, metric) >= d / (FloorsOf(metric).madEps / 10.0)
  {
    FlatMedian(Diffs(post), d);
    SlopeOverFlatBaseline(pre, post, v, d, metric);
  }
}
