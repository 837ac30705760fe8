/** What one outlying bucket can do to the slope pass (sentinel/tools/stats.py). */
module OnsetSpikes {
  import opened Common
  import opened Sorting
  import opened OnsetStats

  /** The series with bucket k moved by height. */
  function Bumped(vals: seq<real>, k: nat, height: real): seq<real>
    requires k < |vals|
  {
    vals[k := vals[k] + height]
  }

  // ----- when a median lies above a number ---------------------------------------------------------

  /** Some sample at or below m is closer to it than every sample above. */
  ghost predicate LowIsCloser(vals: seq<real>, m: real) {
    exists j :: 0 <= j < |vals| && vals[j] <= m && Closer(vals, m, vals[j])
  }

  ghost predicate Closer(vals: seq<real>, m: real, low: real) {
    forall i :: 0 <= i < |vals| && vals[i] > m ==> vals[i] + low > 2.0 * m
  }

  ghost predicate TipsOver(vals: seq<real>, m: real) {
    2 * CountAbove(vals, m) > |vals| || (2 * CountAbove(vals, m) == |vals| && LowIsCloser(vals, m))
  }

  /** The median lies above m exactly when most samples do, or half of them and the closest of the
      rest is closer to m than they are. */
  lemma {:induction false} MedianAboveIff(vals: seq<real>, m: real)
    requires vals != []
    ensures Median(vals) > m <==> TipsOver(vals, m)
  {
    if 2 * CountAbove(vals, m) > |vals| {
      MajorityLiftsMedian(vals, m);
    } else if 2 * CountAbove(vals, m) < |vals| {
      MinorityCannotLiftMedian(vals, m);
    } else {
      HalvesTip(vals, m);
    }
  }

  lemma {:induction false} MiddlesStraddle(vals: seq<real>, m: real)
    requires vals != [] && 2 * CountAbove(vals, m) == |vals|
    ensures var s, c := Sort(vals, RealLeq), CountAbove(vals, m);
            && SortedBy(s, RealLeq) && |s| == 2 * c && s[c - 1] <= m < s[c]
            && Median(vals) == (s[c - 1] + s[c]) / 2.0
  {
    var s, c := Sort(vals, RealLeq), CountAbove(vals, m);
    RealLeqIsTotal();
    SortSorts(vals, RealLeq);
    SortPermutes(vals, RealLeq);
    SortCounts(vals, m);
    if s[c] <= m { HeadNotAbove(s, m, c); }
    if s[c - 1] > m { TailAbove(s, m, c - 1); }
  }

  lemma {:induction false} HalvesTip(vals: seq<real>, m: real)
    requires vals != [] && 2 * CountAbove(vals, m) == |vals|
    ensures Median(vals) > m <==> LowIsCloser(vals, m)
  {
    var s, c := Sort(vals, RealLeq), CountAbove(vals, m);
    MiddlesStraddle(vals, m);
    SortMembers(vals, RealLeq);
    assert s[c - 1] in s && s[c] in s;
    if Median(vals) > m {
      var j :| 0 <= j < |vals| && vals[j] == s[c - 1];
      forall i | 0 <= i < |vals| && vals[i] > m ensures vals[i] + vals[j] > 2.0 * m {
        assert vals[i] in s;
        HighIsLate(s, m, c, vals[i]);
      }
      assert Closer(vals, m, vals[j]);
    }
    if LowIsCloser(vals, m) {
      var j :| 0 <= j < |vals| && vals[j] <= m && Closer(vals, m, vals[j]);
      var i :| 0 <= i < |vals| && vals[i] == s[c];
      assert vals[j] in s;
      LowIsEarly(s, m, c, vals[j]);
    }
  }

  lemma {:induction false} HighIsLate(s: seq<real>, m: real, c: nat, x: real)
    requires SortedBy(s, RealLeq) && 0 < c < |s| && s[c - 1] <= m && x in s
    ensures x <= m || x >= s[c]
  {
    var i :| 0 <= i < |s| && s[i] == x;
    if i < c - 1 { assert RealLeq(s[i], s[c - 1]); }
    if i > c { assert RealLeq(s[c], s[i]); }
  }

  lemma {:induction false} LowIsEarly(s: seq<real>, m: real, c: nat, x: real)
    requires SortedBy(s, RealLeq) && 0 < c < |s| && m < s[c] && x in s
    ensures x > m || x <= s[c - 1]
  {
    var i :| 0 <= i < |s| && s[i] == x;
    if i > c { assert RealLeq(s[c], s[i]); }
    if i < c - 1 { assert RealLeq(s[i], s[c - 1]); }
  }

  // ----- one bucket moves two differences, in opposite directions ------------------------------------

  function Shifted(diffs: seq<real>, k: nat, height: real): seq<real>
    requires k <= |diffs|
  {
    var entered := if k > 0 then diffs[k - 1 := diffs[k - 1] + height] else diffs;
    if k < |diffs| then entered[k := diffs[k] - height] else entered
  }

  lemma {:induction false} ShiftedAt(diffs: seq<real>, k: nat, height: real, i: nat)
    requires k <= |diffs| && i < |diffs|
    ensures |Shifted(diffs, k, height)| == |diffs|
    ensures Shifted(diffs, k, height)[i] == if i == k then diffs[i] - height else if i + 1 == k then diffs[i] + height else diffs[i]
  {}

  lemma {:induction false} BumpShifts(vals: seq<real>, k: nat, height: real)
    requires |vals| >= 2 && k < |vals|
    ensures Diffs(Bumped(vals, k, height)) == Shifted(Diffs(vals), k, height)
  {
    var moved := Bumped(vals, k, height);
    ShiftedAt(Diffs(vals), k, height, 0);
    forall i | 0 <= i < |vals| - 1 ensures Diffs(moved)[i] == Shifted(Diffs(vals), k, height)[i] {
      ShiftedAt(Diffs(vals), k, height, i);
    }
  }

  lemma {:induction false} CountUpdated(vals: seq<real>, i: nat, x: real, m: real)
    requires i < |vals|
    ensures CountAbove(vals[i := x], m) + (if vals[i] > m then 1 else 0) == CountAbove(vals, m) + if x > m then 1 else 0
  {
    if i == 0 {
      assert vals[0 := x][1..] == vals[1..];
    } else {
      assert vals[i := x][1..] == vals[1..][i - 1 := x];
      CountUpdated(vals[1..], i - 1, x, m);
    }
  }

  /** Of any series whatever, so at most one more difference comes to lie above m. */
  lemma {:induction false} SpikeLiftsAtMostOne(vals: seq<real>, k: nat, height: real, m: real)
    requires |vals| >= 2 && k < |vals|
    ensures CountAbove(Diffs(Bumped(vals, k, height)), m) <= CountAbove(Diffs(vals), m) + 1
  {
    var diffs := Diffs(vals);
    BumpShifts(vals, k, height);
    var entered := if k > 0 then diffs[k - 1 := diffs[k - 1] + height] else diffs;
    if k > 0 { CountUpdated(diffs, k - 1, diffs[k - 1] + height, m); }
    if k < |diffs| { CountUpdated(entered, k, diffs[k] - height, m); }
  }

  // ----- any series ------------------------------------------------------------------------------------

  /** The slope pass on a bumped series. */
  function SlopeZ(pre: seq<real>, vals: seq<real>, k: nat, height: real, madEps: real): real
    requires madEps > 0.0 && k < |vals|
  {
    LevelZ(Diffs(pre), Diffs(Bumped(vals, k, height)), madEps, 0.0, 0.0)
  }

  /** A given spike fires exactly when it tips the differences over the baseline's median one. */
  lemma {:induction false} SpikeFiresIff(pre: seq<real>, vals: seq<real>, k: nat, height: real, madEps: real)
    requires madEps > 0.0 && |vals| >= 2 && k < |vals|
    ensures SlopeZ(pre, vals, k, height, madEps) > 0.0
       <==> |pre| >= 5 && TipsOver(Diffs(Bumped(vals, k, height)), Median(Diffs(pre)))
  {
    var post := Diffs(Bumped(vals, k, height));
    LevelZPositiveIff(Diffs(pre), post, madEps, 0.0, 0.0);
    MedianAboveIff(post, Median(Diffs(pre)));
  }

  /** Does one more difference above m make less than half of them, or more? */
  predicate OneMoreIsFewer(vals: seq<real>, m: real) {
    2 * (CountAbove(Diffs(vals), m) + 1) < |vals| - 1
  }

  predicate OneMoreIsMost(vals: seq<real>, m: real) {
    2 * (CountAbove(Diffs(vals), m) + 1) > |vals| - 1
  }

  /** Where one more rising difference does not make half of them, no spike fires. */
  lemma {:induction false} OneSpikeIsNotEnough(pre: seq<real>, vals: seq<real>, k: nat, height: real, madEps: real)
    requires madEps > 0.0 && k < |vals| && OneMoreIsFewer(vals, Median(Diffs(pre)))
    ensures SlopeZ(pre, vals, k, height, madEps) == 0.0
  {
    SpikeLiftsAtMostOne(vals, k, height, Median(Diffs(pre)));
    MinorityIsNoStep(Diffs(pre), Diffs(Bumped(vals, k, height)), madEps, 0.0, 0.0);
  }

  /** There the reported step is that of the level pass alone. */
  lemma {:induction false} OnlyTheLevelCounts(pre: seq<real>, vals: seq<real>, k: nat, height: real, metric: Metric)
    requires k < |vals| && OneMoreIsFewer(vals, Median(Diffs(pre)))
    ensures var f := FloorsOf(metric);
            StepZ(pre, Bumped(vals, k, height), metric) == LevelZ(pre, Bumped(vals, k, height), f.madEps, f.dAbs, f.dRel)
  {
    var f := FloorsOf(metric);
    OneSpikeIsNotEnough(pre, vals, k, height, f.madEps / 10.0);
    LevelZNonNegative(pre, Bumped(vals, k, height), f.madEps, f.dAbs, f.dRel);
    StepZCoversBoth(pre, Bumped(vals, k, height), metric);
  }

  /** Two neighbours at or below m. */
  predicate LowPair(diffs: seq<real>, m: real, i: int) {
    0 <= i < |diffs| - 1 && diffs[i] <= m && diffs[i + 1] <= m
  }

  /** Where no two neighbours lie at or below m, nor either end, most lie above. */
  lemma {:induction false} Interleaved(vals: seq<real>, m: real)
    requires vals != [] && vals[0] > m && vals[|vals| - 1] > m
    requires forall i :: !LowPair(vals, m, i)
    ensures 2 * CountAbove(vals, m) > |vals|
  {
    if |vals| == 1 {
    } else if vals[1] > m {
      forall i ensures !LowPair(vals[1..], m, i) { assert !LowPair(vals, m, i + 1); }
      Interleaved(vals[1..], m);
    } else {
      assert !LowPair(vals, m, 1);
      forall i ensures !LowPair(vals[2..], m, i) { assert !LowPair(vals, m, i + 2); }
      Interleaved(vals[2..], m);
      assert vals[1..][1..] == vals[2..];
    }
  }

  lemma {:induction false} FirstLifts(diffs: seq<real>, m: real)
    requires diffs != [] && diffs[0] <= m
    ensures CountAbove(Shifted(diffs, 0, diffs[0] - m - 1.0), m) == CountAbove(diffs, m) + 1
  {
    CountUpdated(diffs, 0, m + 1.0, m);
  }

  lemma {:induction false} LastLifts(diffs: seq<real>, m: real)
    requires diffs != [] && diffs[|diffs| - 1] <= m
    ensures CountAbove(Shifted(diffs, |diffs|, m - diffs[|diffs| - 1] + 1.0), m) == CountAbove(diffs, m) + 1
  {
    CountUpdated(diffs, |diffs| - 1, m + 1.0, m);
  }

  lemma {:induction false} InnerLifts(diffs: seq<real>, m: real, i: nat)
    requires i + 1 < |diffs| && diffs[i] <= m && diffs[i + 1] <= m
    ensures CountAbove(Shifted(diffs, i + 1, m - diffs[i] + 1.0), m) == CountAbove(diffs, m) + 1
  {
    CountUpdated(diffs, i, m + 1.0, m);
    CountUpdated(diffs[i := m + 1.0], i + 1, diffs[i + 1] - (m - diffs[i] + 1.0), m);
  }

  /** Unless most differences lie above m already, one more can be brought there. */
  lemma {:induction false} SomeShiftLifts(diffs: seq<real>, m: real) returns (k: nat, height: real)
    requires diffs != [] && 2 * CountAbove(diffs, m) <= |diffs|
    ensures k <= |diffs| && CountAbove(Shifted(diffs, k, height), m) == CountAbove(diffs, m) + 1
  {
    if i :| LowPair(diffs, m, i) {
      k, height := i + 1, m - diffs[i] + 1.0;
      InnerLifts(diffs, m, i);
    } else if diffs[0] <= m {
      k, height := 0, diffs[0] - m - 1.0;
      FirstLifts(diffs, m);
    } else {
      if diffs[|diffs| - 1] > m { Interleaved(diffs, m); }
      k, height := |diffs|, m - diffs[|diffs| - 1] + 1.0;
      LastLifts(diffs, m);
    }
  }

  lemma {:induction false} SomeSpikeLifts(vals: seq<real>, m: real) returns (k: nat, height: real)
    requires |vals| >= 2 && 2 * CountAbove(Diffs(vals), m) <= |vals| - 1
    ensures k < |vals| && CountAbove(Diffs(Bumped(vals, k, height)), m) == CountAbove(Diffs(vals), m) + 1
  {
    k, height := SomeShiftLifts(Diffs(vals), m);
    BumpShifts(vals, k, height);
  }

  /** Where one more rising difference makes most of them, some spike fires. */
  lemma {:induction false} SomeSpikeIsEnough(pre: seq<real>, vals: seq<real>, madEps: real) returns (k: nat, height: real)
    requires madEps > 0.0 && |pre| >= 5 && |vals| >= 2 && OneMoreIsMost(vals, Median(Diffs(pre)))
    ensures k < |vals| && SlopeZ(pre, vals, k, height, madEps) > 0.0
  {
    var m := Median(Diffs(pre));
    if 2 * CountAbove(Diffs(vals), m) > |vals| - 1 {
      k, height := 0, 0.0;
      assert Bumped(vals, 0, 0.0) == vals;
    } else {
      k, height := SomeSpikeLifts(vals, m);
    }
    SpikeFiresIff(pre, vals, k, height, madEps);
  }

  ghost predicate SomeSpikeFires(pre: seq<real>, vals: seq<real>, madEps: real)
    requires madEps > 0.0
  {
    exists k: nat, height :: k < |vals| && SlopeZ(pre, vals, k, height, madEps) > 0.0
  }

  lemma {:induction false} FiringNeedsMost(pre: seq<real>, vals: seq<real>, k: nat, height: real, madEps: real)
    requires madEps > 0.0 && k < |vals| && |vals| % 2 == 0
    requires SlopeZ(pre, vals, k, height, madEps) > 0.0
    ensures |pre| >= 5 && OneMoreIsMost(vals, Median(Diffs(pre)))
  {
    var m := Median(Diffs(pre));
    LevelZPositiveIff(Diffs(pre), Diffs(Bumped(vals, k, height)), madEps, 0.0, 0.0);
    if OneMoreIsFewer(vals, m) { OneSpikeIsNotEnough(pre, vals, k, height, madEps); }
    FewerOrMost(vals, m);
  }

  /** An odd number of differences cannot be halved. */
  lemma {:induction false} FewerOrMost(vals: seq<real>, m: real)
    requires |vals| % 2 == 0
    ensures OneMoreIsFewer(vals, m) || OneMoreIsMost(vals, m)
  {}

  /** So of an even number of buckets some single-bucket spike makes the slope pass fire exactly
      when one more rising difference makes most of them. */
  lemma {:induction false} SomeSpikeFiresIff(pre: seq<real>, vals: seq<real>, madEps: real)
    requires madEps > 0.0 && |vals| >= 2 && |vals| % 2 == 0
    ensures SomeSpikeFires(pre, vals, madEps) <==> |pre| >= 5 && OneMoreIsMost(vals, Median(Diffs(pre)))
  {
    if SomeSpikeFires(pre, vals, madEps) {
      var k: nat, height :| k < |vals| && SlopeZ(pre, vals, k, height, madEps) > 0.0;
      FiringNeedsMost(pre, vals, k, height, madEps);
    }
    if |pre| >= 5 && OneMoreIsMost(vals, Median(Diffs(pre))) {
      var k, height := SomeSpikeIsEnough(pre, vals, madEps);
    }
  }

  // ----- of all spikes, three a bucket decide -----------------------------------------------------------

  /** No difference is farther from m than this. */
  function Reach(diffs: seq<real>, m: real): (r: real)
    ensures r >= 0.0 && forall i :: 0 <= i < |diffs| ==> Abs(diffs[i] - m) <= r
  {
    if diffs == [] then 0.0 else MaxReal(Abs(diffs[0] - m), Reach(diffs[1..], m))
  }

  /** High enough to carry any difference beyond all others on either side of m. */
  function Tall(diffs: seq<real>, m: real): real {
    2.0 * Reach(diffs, m) + 1.0
  }

  /** The height that makes the differences before and after bucket k equal. */
  function Levelling(diffs: seq<real>, k: nat): real {
    if 0 < k < |diffs| then (diffs[k] - diffs[k - 1]) / 2.0 else 0.0
  }

  /** Whatever sample at or below m is closer in a is so in b. */
  ghost predicate KeepsCloser(a: seq<real>, b: seq<real>, m: real)
    requires |a| == |b|
  {
    forall j :: 0 <= j < |a| && a[j] <= m && Closer(a, m, a[j]) ==> b[j] == a[j] && Closer(b, m, a[j])
  }

  lemma {:induction false} TipsToo(a: seq<real>, b: seq<real>, m: real)
    requires |a| == |b| && TipsOver(a, m) && CountAbove(b, m) >= CountAbove(a, m)
    requires CountAbove(b, m) > CountAbove(a, m) || KeepsCloser(a, b, m)
    ensures TipsOver(b, m)
  {
    if 2 * CountAbove(a, m) == |a| == 2 * CountAbove(b, m) {
      var j :| 0 <= j < |a| && a[j] <= m && Closer(a, m, a[j]);
      assert b[j] == a[j];
    }
  }

  function Pair(diffs: seq<real>, k: nat, x: real, y: real): seq<real>
    requires 0 < k < |diffs|
  {
    diffs[k - 1 := x][k := y]
  }

  lemma {:induction false} PairCounts(diffs: seq<real>, k: nat, x: real, y: real, m: real)
    requires 0 < k < |diffs|
    ensures CountAbove(Pair(diffs, k, x, y), m) + (if diffs[k - 1] > m then 1 else 0) + (if diffs[k] > m then 1 else 0)
         == CountAbove(diffs, m) + (if x > m then 1 else 0) + if y > m then 1 else 0
  {
    CountUpdated(diffs, k - 1, x, m);
    CountUpdated(diffs[k - 1 := x], k, y, m);
  }

  lemma {:induction false} ShiftedIsPair(diffs: seq<real>, k: nat, height: real)
    requires 0 < k < |diffs|
    ensures Shifted(diffs, k, height) == Pair(diffs, k, diffs[k - 1] + height, diffs[k] - height)
  {}

  /** A pair on both sides of m, together not above it: carrying the upper one far away does as well. */
  lemma {:induction false} ApartTips(diffs: seq<real>, k: nat, x: real, y: real, x': real, y': real, m: real)
    requires 0 < k < |diffs| && TipsOver(Pair(diffs, k, x, y), m) && x + y <= 2.0 * m
    requires x' + y' <= 2.0 * m
    requires (x > m && x' > m + Reach(diffs, m)) || (y > m && y' > m + Reach(diffs, m))
    ensures TipsOver(Pair(diffs, k, x', y'), m)
  {
    var a, b := Pair(diffs, k, x, y), Pair(diffs, k, x', y');
    PairCounts(diffs, k, x, y, m);
    PairCounts(diffs, k, x', y', m);
    var up := if x > m then k - 1 else k;
    forall j | 0 <= j < |a| && a[j] <= m && Closer(a, m, a[j]) ensures b[j] == a[j] && Closer(b, m, a[j]) {
      assert a[up] + a[j] > 2.0 * m;
      assert a[j] == diffs[j];
      forall i | 0 <= i < |b| && b[i] > m ensures b[i] + a[j] > 2.0 * m {
        if i != up { assert a[i] == b[i]; }
      }
    }
    TipsToo(a, b, m);
  }

  /** A pair above m: the same with both at their mean. */
  lemma {:induction false} LevelTips(diffs: seq<real>, k: nat, x: real, y: real, m: real)
    requires 0 < k < |diffs| && TipsOver(Pair(diffs, k, x, y), m) && x + y > 2.0 * m
    ensures var mean := (x + y) / 2.0; TipsOver(Pair(diffs, k, mean, mean), m)
  {
    var mean := (x + y) / 2.0;
    var a, b := Pair(diffs, k, x, y), Pair(diffs, k, mean, mean);
    PairCounts(diffs, k, x, y, m);
    PairCounts(diffs, k, mean, mean, m);
    if x > m && y > m {
      forall j | 0 <= j < |a| && a[j] <= m && Closer(a, m, a[j]) ensures b[j] == a[j] && Closer(b, m, a[j]) {
        assert a[k - 1] + a[j] > 2.0 * m && a[k] + a[j] > 2.0 * m;
        forall i | 0 <= i < |b| && b[i] > m ensures b[i] + a[j] > 2.0 * m {
          if i != k && i != k - 1 { assert a[i] == b[i]; }
        }
      }
    }
    TipsToo(a, b, m);
  }

  /** A pair neither of which lies above m: one more does after carrying one far away. */
  lemma {:induction false} LowPairTips(diffs: seq<real>, k: nat, x: real, y: real, x': real, y': real, m: real)
    requires 0 < k < |diffs| && TipsOver(Pair(diffs, k, x, y), m) && x <= m && y <= m && x' > m
    ensures TipsOver(Pair(diffs, k, x', y'), m)
  {
    PairCounts(diffs, k, x, y, m);
    PairCounts(diffs, k, x', y', m);
    TipsToo(Pair(diffs, k, x, y), Pair(diffs, k, x', y'), m);
  }

  predicate OneOfThree(diffs: seq<real>, k: nat, m: real, height: real) {
    height == Tall(diffs, m) || height == -Tall(diffs, m) || height == Levelling(diffs, k)
  }

  lemma {:induction false} InnerThree(diffs: seq<real>, k: nat, height: real, m: real) returns (h: real)
    requires 0 < k < |diffs| && TipsOver(Shifted(diffs, k, height), m)
    ensures OneOfThree(diffs, k, m, h) && TipsOver(Shifted(diffs, k, h), m)
  {
    var x, y := diffs[k - 1] + height, diffs[k] - height;
    assert Abs(diffs[k - 1] - m) <= Reach(diffs, m) && Abs(diffs[k] - m) <= Reach(diffs, m);
    h := if x + y > 2.0 * m then Levelling(diffs, k) else if y > m then -Tall(diffs, m) else Tall(diffs, m);
    ShiftedIsPair(diffs, k, height);
    ShiftedIsPair(diffs, k, h);
    if x + y > 2.0 * m {
      LevelTips(diffs, k, x, y, m);
    } else if x > m || y > m {
      ApartTips(diffs, k, x, y, diffs[k - 1] + h, diffs[k] - h, m);
    } else {
      LowPairTips(diffs, k, x, y, diffs[k - 1] + h, diffs[k] - h, m);
    }
  }

  /** One difference alone: whatever it tips at, it tips far above m. */
  lemma {:induction false} OneTips(diffs: seq<real>, i: nat, x: real, x': real, m: real)
    requires i < |diffs| && TipsOver(diffs[i := x], m) && x' > m + Reach(diffs, m)
    ensures TipsOver(diffs[i := x'], m)
  {
    var a, b := diffs[i := x], diffs[i := x'];
    CountUpdated(diffs, i, x, m);
    CountUpdated(diffs, i, x', m);
    if x > m {
      forall j | 0 <= j < |a| && a[j] <= m && Closer(a, m, a[j]) ensures b[j] == a[j] && Closer(b, m, a[j]) {
        assert a[j] == diffs[j];
        forall l | 0 <= l < |b| && b[l] > m ensures b[l] + a[j] > 2.0 * m {
          if l != i { assert a[l] == b[l]; }
        }
      }
    }
    TipsToo(a, b, m);
  }

  lemma {:induction false} FirstThree(diffs: seq<real>, height: real, m: real)
    requires diffs != [] && TipsOver(Shifted(diffs, 0, height), m)
    ensures TipsOver(Shifted(diffs, 0, -Tall(diffs, m)), m)
  {
    assert Abs(diffs[0] - m) <= Reach(diffs, m);
    OneTips(diffs, 0, diffs[0] - height, diffs[0] + Tall(diffs, m), m);
  }

  lemma {:induction false} LastThree(diffs: seq<real>, height: real, m: real)
    requires diffs != [] && TipsOver(Shifted(diffs, |diffs|, height), m)
    ensures TipsOver(Shifted(diffs, |diffs|, Tall(diffs, m)), m)
  {
    var last := |diffs| - 1;
    assert Abs(diffs[last] - m) <= Reach(diffs, m);
    OneTips(diffs, last, diffs[last] + height, diffs[last] + Tall(diffs, m), m);
  }

  lemma {:induction false} ThreeDecide(diffs: seq<real>, k: nat, height: real, m: real) returns (h: real)
    requires diffs != [] && k <= |diffs| && TipsOver(Shifted(diffs, k, height), m)
    ensures OneOfThree(diffs, k, m, h) && TipsOver(Shifted(diffs, k, h), m)
  {
    if k == 0 {
      FirstThree(diffs, height, m);
      h := -Tall(diffs, m);
    } else if k == |diffs| {
      LastThree(diffs, height, m);
      h := Tall(diffs, m);
    } else {
      h := InnerThree(diffs, k, height, m);
    }
  }

  /** On any series, if some spike at bucket k makes the slope pass fire then one of three does: one
      taller than every difference, up or down, or the one that makes the differences on its two
      sides equal. So three heights a bucket decide whether any spike can. */
  lemma {:induction false} ThreeSpikesDecide(pre: seq<real>, vals: seq<real>, k: nat, height: real, madEps: real)
    returns (h: real)
    requires madEps > 0.0 && |vals| >= 2 && k < |vals| && SlopeZ(pre, vals, k, height, madEps) > 0.0
    ensures OneOfThree(Diffs(vals), k, Median(Diffs(pre)), h) && SlopeZ(pre, vals, k, h, madEps) > 0.0
  {
    FiresIffShifted(pre, vals, k, height, madEps);
    h := ThreeDecide(Diffs(vals), k, height, Median(Diffs(pre)));
    FiresIffShifted(pre, vals, k, h, madEps);
  }

  lemma {:induction false} FiresIffShifted(pre: seq<real>, vals: seq<real>, k: nat, height: real, madEps: real)
    requires madEps > 0.0 && |vals| >= 2 && k < |vals|
    ensures SlopeZ(pre, vals, k, height, madEps) > 0.0
       <==> |pre| >= 5 && TipsOver(Shifted(Diffs(vals), k, height), Median(Diffs(pre)))
  {
    SpikeFiresIff(pre, vals, k, height, madEps);
    BumpShifts(vals, k, height);
  }

  // ----- small series ------------------------------------------------------------------------------------

  /** Of any three buckets, raising the last or lowering the first moves the median difference by
      half as much, and the middle one does not matter. */
  lemma {:induction false} OfThreeBuckets(vals: seq<real>, k: nat, height: real)
    requires |vals| == 3 && k < 3
    ensures Median(Diffs(Bumped(vals, k, height))) == Median(Diffs(vals)) + SpikeSlope(3, k, height)
  {
    var diffs, moved := Diffs(vals), Diffs(Bumped(vals, k, height));
    assert diffs == [diffs[0], diffs[1]] && moved == [moved[0], moved[1]];
    MedianOfTwo(diffs[0], diffs[1]);
    MedianOfTwo(moved[0], moved[1]);
  }

  /** Four cpu buckets over an idle baseline score nothing, and with one of them raised by a tenth
      they score 100 (the threshold is 3). */
  lemma {:induction false} AQuietSeriesCanBeTipped(idle: seq<real>, vals: seq<real>)
    requires |idle| >= 6 && Flat(idle, 0.0) && vals == [0.0, -1.0, -1.0, -0.8]
    ensures StepZ(idle, vals, Cpu) == 0.0 && StepZ(idle, Bumped(vals, 2, 0.1), Cpu) >= 100.0
  {
    QuietFour(idle, vals);
    RaisedThird(vals);
    TippedFour(Bumped(vals, 2, 0.1));
    TippedScores(idle, Bumped(vals, 2, 0.1), Cpu);
  }

  lemma {:induction false} RaisedThird(vals: seq<real>)
    requires vals == [0.0, -1.0, -1.0, -0.8]
    ensures Bumped(vals, 2, 0.1) == [0.0, -1.0, -0.9, -0.8]
  {}

  lemma {:induction false} TippedScores(idle: seq<real>, post: seq<real>, metric: Metric)
    requires |idle| >= 6 && Flat(idle, 0.0) && |post| >= 3 && Median(Diffs(post)) == 0.1 && metric.Cpu?
    ensures StepZ(idle, post, metric) >= 100.0
  {
    SlopeOverFlatBaseline(idle, post, 0.0, 0.1, metric);
    TenthOfCpu(metric);
  }

  lemma {:induction false} TenthOfCpu(metric: Metric)
    requires metric.Cpu?
    ensures 0.1 / (FloorsOf(metric).madEps / 10.0) == 100.0
  {}

  lemma {:induction false} TippedFour(post: seq<real>)
    requires post == [0.0, -1.0, -0.9, -0.8]
    ensures Median(Diffs(post)) == 0.1
  {
    var diffs := Diffs(post);
    assert |diffs| == 3 && diffs[0] == -1.0 && diffs[1] == 0.1 && diffs[2] == 0.1;
    CountAboveOne(diffs, 0.1, -1);
    MinorityCannotLiftMedian(diffs, 0.1);
    OneCannotLowerMedian(diffs, 0.1, 0);
  }

  lemma {:induction false} QuietFour(idle: seq<real>, vals: seq<real>)
    requires |idle| >= 6 && Flat(idle, 0.0) && vals == [0.0, -1.0, -1.0, -0.8]
    ensures StepZ(idle, vals, Cpu) == 0.0
  {
    FlatMedian(idle, 0.0);
    FlatSlope(idle, 0.0);
    FlatMedian(Diffs(idle), 0.0);
    CountAboveOne(vals, 0.0, -1);
    MinorityIsNoStep(idle, vals, FloorsOf(Cpu).madEps, FloorsOf(Cpu).dAbs, FloorsOf(Cpu).dRel);
    CountAboveOne(Diffs(vals), 0.0, 2);
    MinorityIsNoStep(Diffs(idle), Diffs(vals), FloorsOf(Cpu).madEps / 10.0, 0.0, 0.0);
  }

  // ----- a flat series -----------------------------------------------------------------------------------

  /** A flat series with one bucket raised or lowered. */
  function Spike(v: real, n: nat, k: nat, height: real): seq<real>
    requires k < n
  {
    Bumped(seq(n, i => v), k, height)
  }

  /** How far such a spike moves the median of the differences: not at all, except that of three
      buckets an outer one moves it by half its height. */
  function SpikeSlope(n: nat, k: nat, height: real): real {
    if n == 3 && k == 0 then -height / 2.0
    else if n == 3 && k == 2 then height / 2.0
    else 0.0
  }

  lemma {:induction false} SpikeMovesMedianBy(v: real, n: nat, k: nat, height: real)
    requires 3 <= n && k < n
    ensures Median(Diffs(Spike(v, n, k, height))) == SpikeSlope(n, k, height)
  {
    var diffs := Diffs(Spike(v, n, k, height));
    if n == 3 {
      assert diffs == [diffs[0], diffs[1]];
      MedianOfTwo(diffs[0], diffs[1]);
    } else {
      var up, down := if height > 0.0 then k - 1 else k, if height > 0.0 then k else k - 1;
      CountAboveOne(diffs, 0.0, up);
      MinorityCannotLiftMedian(diffs, 0.0);
      OneCannotLowerMedian(diffs, 0.0, down);
    }
  }

  /** The slope pass fires on a single-bucket spike over a flat series exactly when the baseline
      has enough samples and the spike moves the median of the differences past the baseline's:
      of four buckets or more never, unless the baseline was falling; of three, on the edge. */
  lemma {:induction false} SpikeSlopeIff(pre: seq<real>, v: real, n: nat, k: nat, height: real, madEps: real)
    requires madEps > 0.0 && 3 <= n && k < n
    ensures LevelZ(Diffs(pre), Diffs(Spike(v, n, k, height)), madEps, 0.0, 0.0) > 0.0
       <==> |pre| >= 5 && SpikeSlope(n, k, height) > Median(Diffs(pre))
  {
    SpikeMovesMedianBy(v, n, k, height);
    LevelZPositiveIff(Diffs(pre), Diffs(Spike(v, n, k, height)), madEps, 0.0, 0.0);
  }

  /** With three post-onset samples a raised last bucket is seen, by half its height. */
  lemma {:induction false} LastBucketIsSeen(pre: seq<real>, v: real, height: real, metric: Metric)
    requires |pre| >= 6 && Flat(pre, v) && height > 0.0
    ensures StepZ(pre, Spike(v, 3, 2, height), metric) >= (height / 2.0) / (FloorsOf(metric).madEps / 10.0)
  {
    SpikeMovesMedianBy(v, 3, 2, height);
    SlopeOverFlatBaseline(pre, Spike(v, 3, 2, height), v, height / 2.0, metric);
  }

  /** One cpu bucket at a hundredth over an idle baseline passes for an onset (the threshold is 3). */
  lemma {:induction false} ASpikeCanPassForAStep()
    ensures StepZ([0.0, 0.0, 0.0, 0.0, 0.0, 0.0], Spike(0.0, 3, 2, 0.01), Cpu) >= 5.0
  {
    LastBucketIsSeen([0.0, 0.0, 0.0, 0.0, 0.0, 0.0], 0.0, 0.01, Cpu);
  }
}
