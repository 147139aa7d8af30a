/**
 * Evaluation of one candidate variable at a node (src/c4_5_var_selector.cpp,
 * `handleDiscVar` and `handleContVar`; the ordering of src/c4_5_var_selector.h,
 * `VarValueComparor`).
 *
 * A numeric variable is evaluated on the node's observations sorted by value.
 * The model sorts with a stable insertion sort; the scan's properties are
 * proved for any sorted order, so they do not depend on which sorted order
 * the library sort produces.
 */
module Splits {
  import opened Base
  import opened Data
  import opened Entropy

  /** A recorded candidate split: gain, split information, split value (numeric variables only) and the partition. */
  datatype Cand = Cand(infoGain: real, splitInfo: real, splitValue: Option<real>, parts: seq<seq<nat>>)

  /**
   * The split information both handlers record: `n log n` of the node minus
   * `n log n` of every part, over the node size.
   */
  predicate SplitInfoOf(t: seq<real>, n: nat, parts: seq<seq<nat>>, si: real)
  {
    && n > 0 && n < |t|
    && Indexes(t, Sizes(parts))
    && si == (t[n] - AllTerms(t, Sizes(parts))) / (n as real)
  }

  // ---------------------------------------------------------------------------
  // Ordering by value

  /** Non-decreasing in the variable's values: the order `VarValueComparor` sorts into. */
  predicate SortedBy(vals: seq<real>, s: seq<nat>)
    requires ValidObs(s, |vals|)
  {
    forall i, j :: 0 <= i < j < |s| ==> vals[s[i]] <= vals[s[j]]
  }

  /** Insert `x` after every element whose value is not greater. */
  function Insert(vals: seq<real>, x: nat, s: seq<nat>): (r: seq<nat>)
    requires ValidObs(s, |vals|) && x < |vals| && SortedBy(vals, s)
    ensures |r| == |s| + 1 && ValidObs(r, |vals|) && SortedBy(vals, r)
    ensures multiset(r) == multiset(s) + multiset{x}
    ensures r[0] == x || (|s| > 0 && r[0] == s[0])
  {
    if |s| == 0 then [x]
    else if vals[x] < vals[s[0]] then [x] + s
    else
      var rest := Insert(vals, x, s[1..]);
      assert s == [s[0]] + s[1..];
      PrependSorted(vals, s[0], rest);
      [s[0]] + rest
  }

  /** A value no greater than the head of a sorted sequence keeps it sorted in front. */
  lemma PrependSorted(vals: seq<real>, a: nat, t: seq<nat>)
    requires a < |vals| && ValidObs(t, |vals|) && SortedBy(vals, t)
    requires |t| > 0 ==> vals[a] <= vals[t[0]]
    ensures ValidObs([a] + t, |vals|) && SortedBy(vals, [a] + t)
  {
    var r := [a] + t;
    assert forall k :: 1 <= k < |r| ==> r[k] == t[k - 1];
  }

  /** Insertion sort of the observations by value. */
  function SortByValue(vals: seq<real>, obs: seq<nat>): (r: seq<nat>)
    requires ValidObs(obs, |vals|)
    ensures |r| == |obs| && ValidObs(r, |vals|) && SortedBy(vals, r)
    ensures multiset(r) == multiset(obs)
  {
    if |obs| == 0 then []
    else
      var init := obs[..|obs| - 1];
      assert obs == init + [obs[|obs| - 1]];
      Insert(vals, obs[|obs| - 1], SortByValue(vals, init))
  }

  // ---------------------------------------------------------------------------
  // Label counts of a prefix and a suffix

  /** Label counts add up over a concatenation. */
  lemma FreqAppend(target: Target, a: seq<nat>, b: seq<nat>)
    requires Labelled(target, a) && Labelled(target, b)
    ensures Labelled(target, a + b)
    ensures forall l :: 0 <= l < target.nlabels ==>
              LabelFreqCount(target, a + b)[l] == LabelFreqCount(target, a)[l] + LabelFreqCount(target, b)[l]
  {
    assert forall i :: 0 <= i < |a + b| ==> (a + b)[i] == if i < |a| then a[i] else b[i - |a|];
    assert LabelsOf(target, a + b) == LabelsOf(target, a) + LabelsOf(target, b);
    FreqCounts(target, a);
    FreqCounts(target, b);
    FreqCounts(target, a + b);
  }

  /** The counts of a single observation. */
  lemma FreqOne(target: Target, x: nat)
    requires Labelled(target, [x])
    ensures forall l :: 0 <= l < target.nlabels ==>
              LabelFreqCount(target, [x])[l] == if l == target.labels[x] - 1 then 1 else 0
  {
    assert [x][0] == x;
    assert LabelsOf(target, [x]) == [target.labels[x]];
    FreqCounts(target, [x]);
  }

  /** The counts of a prefix and of the matching suffix add up to the whole set's counts. */
  lemma FreqSplit(target: Target, obs: seq<nat>, i: nat)
    requires Labelled(target, obs) && i <= |obs|
    ensures Labelled(target, obs[..i]) && Labelled(target, obs[i..])
    ensures forall l :: 0 <= l < target.nlabels ==>
              LabelFreqCount(target, obs[..i])[l] + LabelFreqCount(target, obs[i..])[l] == LabelFreqCount(target, obs)[l]
  {
    assert obs == obs[..i] + obs[i..];
    FreqAppend(target, obs[..i], obs[i..]);
  }

  /** Appending one observation adds one to its label's count. */
  lemma FreqAddLast(target: Target, a: seq<nat>, x: nat)
    requires Labelled(target, a) && x < |target.labels| && 1 <= target.labels[x] <= target.nlabels
    ensures Labelled(target, a + [x])
    ensures var f := LabelFreqCount(target, a); var l := target.labels[x] - 1;
            LabelFreqCount(target, a + [x]) == f[l := f[l] + 1]
  {
    assert [x][0] == x;
    FreqAppend(target, a, [x]);
    FreqOne(target, x);
    var f := LabelFreqCount(target, a);
    var l := target.labels[x] - 1;
    var g := LabelFreqCount(target, a + [x]);
    forall k | 0 <= k < |g|
      ensures g[k] == f[l := f[l] + 1][k]
    {
    }
  }

  /** Removing the first observation takes one from its label's count. */
  lemma FreqDropFirst(target: Target, x: nat, b: seq<nat>)
    requires Labelled(target, b) && x < |target.labels| && 1 <= target.labels[x] <= target.nlabels
    ensures Labelled(target, [x] + b)
    ensures var f := LabelFreqCount(target, [x] + b); var l := target.labels[x] - 1;
            LabelFreqCount(target, b) == f[l := f[l] - 1]
  {
    assert [x][0] == x;
    FreqAppend(target, [x], b);
    FreqOne(target, x);
    var l := target.labels[x] - 1;
    OneUpdate(LabelFreqCount(target, b), LabelFreqCount(target, [x] + b), l);
  }

  /** `g` is `f` with one taken from entry `l`, written pointwise. */
  lemma OneUpdate(g: seq<int>, f: seq<int>, l: nat)
    requires |g| == |f| && l < |f| && g[l] == f[l] - 1
    requires forall k :: 0 <= k < |f| && k != l ==> g[k] == f[k]
    ensures g == f[l := f[l] - 1]
  {
  }

  /** Moving the cut one place right adds one count to the left side... */
  lemma ShiftLeft(target: Target, so: seq<nat>, i: nat)
    requires Labelled(target, so) && i < |so|
    ensures Labelled(target, so[..i]) && Labelled(target, so[..i + 1])
    ensures var f := LabelFreqCount(target, so[..i]); var l := target.labels[so[i]] - 1;
            LabelFreqCount(target, so[..i + 1]) == f[l := f[l] + 1]
  {
    var a := so[..i];
    assert Labelled(target, a);
    FreqAddLast(target, a, so[i]);
    assert so[..i + 1] == a + [so[i]];
  }

  /** ...and takes it from the right side. */
  lemma ShiftRight(target: Target, so: seq<nat>, i: nat)
    requires Labelled(target, so) && i < |so|
    ensures Labelled(target, so[i..]) && Labelled(target, so[i + 1..])
    ensures var f := LabelFreqCount(target, so[i..]); var l := target.labels[so[i]] - 1;
            LabelFreqCount(target, so[i + 1..]) == f[l := f[l] - 1]
  {
    var b := so[i + 1..];
    assert Labelled(target, b) by {
      assert forall k :: 0 <= k < |b| ==> b[k] == so[i + 1 + k];
    }
    assert so[i] == so[i..][0];
    assert so[i..] == [so[i]] + b;
    FreqDropFirst(target, so[i], b);
  }

  /** Moving the cut one place right moves one count from the right side to the left. */
  lemma FreqShift(target: Target, so: seq<nat>, i: nat)
    requires Labelled(target, so) && i < |so|
    ensures Labelled(target, so[..i]) && Labelled(target, so[i..])
    ensures Labelled(target, so[..i + 1]) && Labelled(target, so[i + 1..])
    ensures var l := target.labels[so[i]] - 1;
            && LabelFreqCount(target, so[..i + 1]) == LabelFreqCount(target, so[..i])[l := LabelFreqCount(target, so[..i])[l] + 1]
            && LabelFreqCount(target, so[i + 1..]) == LabelFreqCount(target, so[i..])[l := LabelFreqCount(target, so[i..])[l] - 1]
  {
    ShiftLeft(target, so, i);
    ShiftRight(target, so, i);
  }

  // ---------------------------------------------------------------------------
  // The cut-point scan of handleContVar

  /** The sorted observations of one numeric variable with the node's minimum child size. */
  datatype ScanCtx = ScanCtx(t: seq<real>, target: Target, vals: seq<real>, so: seq<nat>, m: nat)

  predicate ValidCtx(c: ScanCtx)
  {
    && Labelled(c.target, c.so)
    && ValidObs(c.so, |c.vals|)
    && Ordered(c)
    && c.m >= 1
    && 2 * c.m <= |c.so| < |c.t|
  }

  /**
   * The sorted order, stated through `ValLe` so that it is used only where a
   * proof names the two positions.
   */
  predicate Ordered(c: ScanCtx)
    requires ValidObs(c.so, |c.vals|)
  {
    forall i, j :: 0 <= i < j < |c.so| ==> ValLe(c, i, j)
  }

  predicate ValLe(c: ScanCtx, i: nat, j: nat)
    requires ValidObs(c.so, |c.vals|) && i < |c.so| && j < |c.so|
  {
    c.vals[c.so[i]] <= c.vals[c.so[j]]
  }

  function Lab(c: ScanCtx, i: nat): int
    requires ValidCtx(c) && i < |c.so|
  {
    c.target.labels[c.so[i]] - 1
  }

  function Val(c: ScanCtx, i: nat): real
    requires ValidCtx(c) && i < |c.so|
  {
    c.vals[c.so[i]]
  }

  /**
   * A cut before position `i` is considered when both sides keep the minimum
   * size and the label and the value both change across it.
   */
  predicate Admissible(c: ScanCtx, i: nat)
    requires ValidCtx(c)
  {
    && c.m <= i < |c.so| - c.m
    && Lab(c, i - 1) != Lab(c, i)
    && Val(c, i - 1) != Val(c, i)
  }

  /** The sub-information of cutting before position `i`. */
  function CutInfo(c: ScanCtx, i: nat): real
    requires ValidCtx(c) && 1 <= i < |c.so|
  {
    FreqSplit(c.target, c.so, i);
    FreqIndexes(c.t, c.target, c.so[..i]);
    FreqIndexes(c.t, c.target, c.so[i..]);
    BisectSubinfo(c.t, LabelFreqCount(c.target, c.so[..i]), i, LabelFreqCount(c.target, c.so[i..]), |c.so| - i)
  }

  /** Entry `i` of `subs` is the sub-information of the cut before `i`. */
  predicate SubAt(c: ScanCtx, subs: seq<real>, i: nat)
    requires ValidCtx(c) && |subs| == |c.so|
  {
    1 <= i < |c.so| ==> subs[i] == CutInfo(c, i)
  }

  /**
   * `subs` tabulates the sub-information of every cut, indexed by the first
   * position right of the cut (entry 0 stands for no cut). Each entry is
   * used only where a proof names its position through `SubAt`.
   */
  predicate SubTable(c: ScanCtx, subs: seq<real>)
    requires ValidCtx(c)
  {
    |subs| == |c.so| && forall i :: 0 <= i < |c.so| ==> SubAt(c, subs, i)
  }

  /** The sub-information of every cut of the sorted set. */
  function Infos(c: ScanCtx): (subs: seq<real>)
    requires ValidCtx(c)
    ensures SubTable(c, subs)
  {
    var subs := seq(|c.so|, (i: int) requires 0 <= i < |c.so| => if i == 0 then 0.0 else CutInfo(c, i));
    assert forall i :: 0 <= i < |c.so| ==> SubAt(c, subs, i);
    subs
  }

  /** The best cut so far: sub-information, the last left value, and the last left position. */
  datatype Cut = Cut(subinfo: real, value: real, pos: nat)

  /**
   * The scan's state after the cuts before `i`: the best is the first
   * admissible cut with the smallest sub-information, or nothing when no cut
   * was admissible.
   */
  predicate BestSoFar(c: ScanCtx, subs: seq<real>, i: nat, best: Option<Cut>)
    requires ValidCtx(c) && |subs| == |c.so| && i < |c.so|
  {
    && (best.None? ==> forall j :: c.m <= j < i ==> !Admissible(c, j))
    && (best.Some? ==>
          && c.m <= best.value.pos + 1 < i
          && Admissible(c, best.value.pos + 1)
          && best.value.subinfo == subs[best.value.pos + 1]
          && best.value.value == Val(c, best.value.pos)
          && (forall j :: c.m <= j < i && Admissible(c, j) ==> best.value.subinfo <= subs[j])
          && (forall j :: c.m <= j < best.value.pos + 1 && Admissible(c, j) ==> best.value.subinfo < subs[j]))
  }

  /** `left` and `right` are the label counts of both sides of the cut before `i`. */
  predicate Counts(c: ScanCtx, i: nat, left: seq<int>, right: seq<int>)
    requires ValidCtx(c) && i <= |c.so|
  {
    && Labelled(c.target, c.so[..i]) && Labelled(c.target, c.so[i..])
    && left == LabelFreqCount(c.target, c.so[..i]) && right == LabelFreqCount(c.target, c.so[i..])
  }

  /** The counts before the counting loop: nothing left, everything right. */
  function InitialCounts(c: ScanCtx): (r: (seq<int>, seq<int>))
    requires ValidCtx(c)
    ensures Counts(c, 0, r.0, r.1)
  {
    assert c.so[..0] == [] && c.so[0..] == c.so;
    (Zeros(c.target.nlabels), LabelFreqCount(c.target, c.so))
  }

  /** Move observation `i` from the right side's counts to the left side's. */
  function Advance(c: ScanCtx, i: nat, left: seq<int>, right: seq<int>): (r: (seq<int>, seq<int>))
    requires ValidCtx(c) && i < |c.so| && Counts(c, i, left, right)
    ensures Counts(c, i + 1, r.0, r.1)
  {
    var l := Lab(c, i);
    FreqShift(c.target, c.so, i);
    (left[l := left[l] + 1], right[l := right[l] - 1])
  }

  /** The counting loop before the scan: move the first `m` observations to the left side. */
  function Prime(c: ScanCtx, i: nat, left: seq<int>, right: seq<int>): (r: (seq<int>, seq<int>))
    requires ValidCtx(c) && i <= c.m && Counts(c, i, left, right)
    ensures Counts(c, c.m, r.0, r.1)
    decreases c.m - i
  {
    if i == c.m then (left, right)
    else
      var lr := Advance(c, i, left, right);
      Prime(c, i + 1, lr.0, lr.1)
  }

  /** The sub-information of the cut before `i`, from the running counts. */
  function RunningSubinfo(c: ScanCtx, subs: seq<real>, i: nat, left: seq<int>, right: seq<int>): (sub: real)
    requires ValidCtx(c) && SubTable(c, subs) && 1 <= i < |c.so| && Counts(c, i, left, right)
    ensures sub == subs[i]
  {
    FreqIndexes(c.t, c.target, c.so[..i]);
    FreqIndexes(c.t, c.target, c.so[i..]);
    assert SubAt(c, subs, i);
    BisectSubinfo(c.t, left, i, right, |c.so| - i)
  }

  /**
   * One step of the scan: an admissible cut whose sub-information is
   * strictly below the best so far replaces it.
   */
  function Step(c: ScanCtx, subs: seq<real>, i: nat, sub: real, best: Option<Cut>): (r: Option<Cut>)
    requires ValidCtx(c) && |subs| == |c.so| && c.m <= i < |c.so| - c.m && BestSoFar(c, subs, i, best)
    requires sub == subs[i]
    ensures BestSoFar(c, subs, i + 1, r)
  {
    if Admissible(c, i) && (best.None? || sub < best.value.subinfo) then Some(Cut(sub, Val(c, i - 1), i - 1))
    else best
  }

  /** The scan loop over `i` in [m, n - m), keeping the running counts of both sides. */
  function Scan(c: ScanCtx, subs: seq<real>, i: nat, left: seq<int>, right: seq<int>, best: Option<Cut>): (r: Option<Cut>)
    requires ValidCtx(c) && SubTable(c, subs) && c.m <= i <= |c.so| - c.m
    requires Counts(c, i, left, right)
    requires BestSoFar(c, subs, i, best)
    ensures BestSoFar(c, subs, |c.so| - c.m, r)
    decreases |c.so| - c.m - i
  {
    if i == |c.so| - c.m then best
    else
      var sub := RunningSubinfo(c, subs, i, left, right);
      var lr := Advance(c, i, left, right);
      Scan(c, subs, i + 1, lr.0, lr.1, Step(c, subs, i, sub, best))
  }

  /**
   * What the scan of `handleContVar` chooses: nothing exactly when no cut is
   * admissible; otherwise an admissible cut leaving at least `m`
   * observations on the left and `m + 1` on the right, whose split value is
   * the last left value, with every left value at most it and every right
   * value above it, no admissible cut of smaller sub-information, and no
   * earlier one of equal sub-information.
   */
  predicate ChosenCut(c: ScanCtx, subs: seq<real>, r: Option<Cut>)
    requires ValidCtx(c) && |subs| == |c.so|
  {
    && (r.None? <==> forall j :: c.m <= j < |c.so| - c.m ==> !Admissible(c, j))
    && (r.Some? ==>
          && c.m <= r.value.pos + 1 && |c.so| - r.value.pos - 1 >= c.m + 1
          && Admissible(c, r.value.pos + 1) && r.value.subinfo == subs[r.value.pos + 1]
          && (forall k :: 0 <= k <= r.value.pos ==> Val(c, k) <= r.value.value)
          && (forall k :: r.value.pos < k < |c.so| ==> Val(c, k) > r.value.value)
          && (forall j :: c.m <= j < |c.so| - c.m && Admissible(c, j) ==> r.value.subinfo <= subs[j])
          && (forall j :: c.m <= j <= r.value.pos && Admissible(c, j) ==> r.value.subinfo < subs[j]))
  }

  /** The whole scan of `handleContVar`: the priming loop, then the cut loop. */
  function ContScan(c: ScanCtx, subs: seq<real>): (r: Option<Cut>)
    requires ValidCtx(c) && SubTable(c, subs)
    ensures ChosenCut(c, subs, r)
  {
    var init := InitialCounts(c);
    var lr := Prime(c, 0, init.0, init.1);
    var r := Scan(c, subs, c.m, lr.0, lr.1, None);
    ScanResult(c, subs, r);
    r
  }

  /** What the final state of the scan says about the chosen cut. */
  lemma ScanResult(c: ScanCtx, subs: seq<real>, r: Option<Cut>)
    requires ValidCtx(c) && |subs| == |c.so| && BestSoFar(c, subs, |c.so| - c.m, r)
    ensures ChosenCut(c, subs, r)
  {
    if r.Some? {
      var p := r.value.pos;
      assert Val(c, p) != Val(c, p + 1);
      assert ValLe(c, p, p + 1);
      forall k | 0 <= k < p
        ensures Val(c, k) <= r.value.value
      {
        assert ValLe(c, k, p);
      }
      forall k | p + 1 < k < |c.so|
        ensures Val(c, k) > r.value.value
      {
        assert ValLe(c, p + 1, k);
      }
    }
  }

  /** Some admissible cut gains information over the node's entropy `info`. */
  predicate SomeCutGains(c: ScanCtx, subs: seq<real>, info: real)
    requires ValidCtx(c) && |subs| == |c.so|
  {
    exists j :: c.m <= j < |c.so| - c.m && Admissible(c, j) && info - subs[j] > 0.0
  }

  /** The scan context of a node's observations sorted by one variable. */
  function SortedCtx(t: seq<real>, target: Target, vals: seq<real>, obs: seq<nat>, m: nat): (c: ScanCtx)
    requires Labelled(target, obs) && ValidObs(obs, |vals|) && m >= 1 && 2 * m <= |obs| < |t|
    ensures ValidCtx(c) && multiset(c.so) == multiset(obs) && |c.so| == |obs|
    ensures c.t == t && c.target == target && c.vals == vals && c.m == m
  {
    var so := SortByValue(vals, obs);
    LabelledSub(target, obs, so);
    var c := ScanCtx(t, target, vals, so, m);
    assert forall i, j :: 0 <= i < j < |so| ==> ValLe(c, i, j);
    c
  }

  /**
   * `cand` bisects the sorted set: its two parts are a prefix of at least `m`
   * and the remaining suffix of at least `m + 1` observations, every left
   * value is at most the split value and every right value above it, and its
   * split information is that of the two parts.
   */
  predicate Bisects(c: ScanCtx, cand: Cand)
    requires ValidCtx(c)
  {
    && |cand.parts| == 2 && cand.splitValue.Some?
    && |cand.parts[0]| >= c.m && |cand.parts[1]| >= c.m + 1
    && Concat(cand.parts) == c.so
    && ValidObs(cand.parts[0], |c.vals|) && ValidObs(cand.parts[1], |c.vals|)
    && (forall k :: 0 <= k < |cand.parts[0]| ==> c.vals[cand.parts[0][k]] <= cand.splitValue.value)
    && (forall k :: 0 <= k < |cand.parts[1]| ==> c.vals[cand.parts[1][k]] > cand.splitValue.value)
    && (c.t[0] == 0.0 ==> SplitInfoOf(c.t, |c.so|, cand.parts, cand.splitInfo))
  }

  /**
   * `handleContVar`: nothing when the node has fewer than `2 m` observations;
   * otherwise the candidate of the observations sorted by value.
   */
  function HandleContVar(t: seq<real>, target: Target, vals: seq<real>, obs: seq<nat>, m: nat, info: real): (r: Option<Cand>)
    requires Labelled(target, obs) && ValidObs(obs, |vals|) && m >= 1 && |obs| < |t|
    ensures |obs| < 2 * m ==> r.None?
    ensures |obs| >= 2 * m ==>
              var c := SortedCtx(t, target, vals, obs, m); r == ContCand(c, Infos(c), info)
    ensures r.Some? ==> r.value.infoGain > 0.0
    ensures r.Some? ==> |r.value.parts| == 2 && multiset(Concat(r.value.parts)) == multiset(obs)
    ensures r.Some? ==> Bisects(SortedCtx(t, target, vals, obs, m), r.value)
  {
    if |obs| < 2 * m then None
    else
      var c := SortedCtx(t, target, vals, obs, m);
      ContCand(c, Infos(c), info)
  }

  /**
   * The candidate of the sorted set: the chosen cut, kept when its gain over
   * the node's entropy `info` is positive.
   */
  function ContCand(c: ScanCtx, subs: seq<real>, info: real): (r: Option<Cand>)
    requires ValidCtx(c) && SubTable(c, subs)
    ensures r.Some? ==> r.value.infoGain > 0.0 && Bisects(c, r.value)
  {
    match ContScan(c, subs)
    case None => None
    case Some(cut) =>
      var ig := info - cut.subinfo;
      if ig <= 0.0 then None
      else
        ChosenBisects(c, subs, cut, ig);
        Some(CandOfCut(c.t, c.so, cut.pos, ig, cut.value))
  }

  /** The sorted set yields a candidate exactly when some admissible cut gains information. */
  lemma ContCandExists(c: ScanCtx, subs: seq<real>, info: real)
    requires ValidCtx(c) && SubTable(c, subs)
    ensures ContCand(c, subs, info).Some? <==> SomeCutGains(c, subs, info)
  {
    CutGains(c, subs, info, ContScan(c, subs));
  }

  /** The best cut gains information exactly when some admissible cut does. */
  lemma CutGains(c: ScanCtx, subs: seq<real>, info: real, r: Option<Cut>)
    requires ValidCtx(c) && |subs| == |c.so| && ChosenCut(c, subs, r)
    ensures (r.Some? && info - r.value.subinfo > 0.0) <==> SomeCutGains(c, subs, info)
  {
    if SomeCutGains(c, subs, info) {
      var j :| c.m <= j < |c.so| - c.m && Admissible(c, j) && info - subs[j] > 0.0;
      assert r.Some?;
    }
    if r.Some? {
      assert c.m <= r.value.pos + 1 < |c.so| - c.m;
    }
  }

  /** The candidate's gain is the best any admissible cut reaches. */
  lemma ContCandBest(c: ScanCtx, subs: seq<real>, info: real)
    requires ValidCtx(c) && SubTable(c, subs)
    ensures ContCand(c, subs, info).Some? ==> forall j :: c.m <= j < |c.so| - c.m && Admissible(c, j) ==>
              ContCand(c, subs, info).value.infoGain >= info - subs[j]
  {
    var r := ContScan(c, subs);
    assert r.Some? ==> forall j :: c.m <= j < |c.so| - c.m && Admissible(c, j) ==> r.value.subinfo <= subs[j];
  }

  /** The candidate recorded for the chosen cut: `splitPosition` and the split information of two parts. */
  function CandOfCut(t: seq<real>, so: seq<nat>, pos: nat, ig: real, value: real): (r: Cand)
    requires pos + 1 < |so| < |t|
    ensures r.infoGain == ig && r.splitValue == Some(value)
    ensures r.parts == [so[..pos + 1], so[pos + 1..]] && Concat(r.parts) == so
    ensures t[0] == 0.0 ==> SplitInfoOf(t, |so|, r.parts, r.splitInfo)
  {
    var n := |so|;
    var parts := SplitPosition(so, pos).value;
    var si := (t[n] - t[pos + 1] - t[n - pos - 1]) / (n as real);
    TwoPartsInfo(t, n, parts, si);
    Cand(ig, si, Some(value), parts)
  }

  /** The split information of a bisection is the two-part case of `SplitInfoOf`. */
  lemma TwoPartsInfo(t: seq<real>, n: nat, parts: seq<seq<nat>>, si: real)
    requires |parts| == 2 && |parts[0]| + |parts[1]| == n && 0 < n < |t|
    requires si == (t[n] - t[|parts[0]|] - t[|parts[1]|]) / (n as real)
    ensures t[0] == 0.0 ==> SplitInfoOf(t, n, parts, si)
  {
    var z := Sizes(parts);
    assert z == [|parts[0]|, |parts[1]|];
    assert z[1..] == [|parts[1]|] && z[1..][1..] == [];
    assert AllTerms(t, z[1..][1..]) == 0.0;
    assert AllTerms(t, z[1..]) == t[|parts[1]|];
    assert AllTerms(t, z) == t[|parts[0]|] + t[|parts[1]|];
  }

  /** The chosen cut's candidate bisects the sorted set. */
  lemma ChosenBisects(c: ScanCtx, subs: seq<real>, cut: Cut, ig: real)
    requires ValidCtx(c) && |subs| == |c.so| && ChosenCut(c, subs, Some(cut))
    ensures cut.pos + 1 < |c.so| < |c.t| && Bisects(c, CandOfCut(c.t, c.so, cut.pos, ig, cut.value))
  {
    var parts := CandOfCut(c.t, c.so, cut.pos, ig, cut.value).parts;
    forall k | 0 <= k < |parts[0]|
      ensures c.vals[parts[0][k]] <= cut.value
    {
      assert parts[0][k] == c.so[k] && Val(c, k) <= cut.value;
    }
    forall k | 0 <= k < |parts[1]|
      ensures c.vals[parts[1][k]] > cut.value
    {
      assert parts[1][k] == c.so[cut.pos + 1 + k] && Val(c, cut.pos + 1 + k) > cut.value;
    }
  }

  // ---------------------------------------------------------------------------
  // handleDiscVar

  /** How many parts hold at least `m` observations. */
  function CountAtLeast(sizes: seq<int>, m: nat): (r: nat)
    ensures r <= |sizes|
  {
    if |sizes| == 0 then 0
    else (if sizes[0] >= m then 1 else 0) + CountAtLeast(sizes[1..], m)
  }

  /** Every part is labelled and small enough for the table. */
  predicate PartsFit(t: seq<real>, target: Target, parts: seq<seq<nat>>)
  {
    forall k :: 0 <= k < |parts| ==> Labelled(target, parts[k]) && |parts[k]| < |t|
  }

  /** The loop of `handleDiscVar` summing the impurity of the non-empty parts. */
  function PartsInfo(t: seq<real>, target: Target, parts: seq<seq<nat>>): real
    requires PartsFit(t, target, parts)
  {
    if |parts| == 0 then 0.0
    else
      var p := parts[0];
      FreqIndexes(t, target, p);
      (if |p| != 0 then SumNlogn(t, LabelFreqCount(target, p), |p|) else 0.0)
        + PartsInfo(t, target, parts[1..])
  }

  /** The parts of a partition of a labelled set fit the table whenever the set does. */
  lemma PartitionFits(t: seq<real>, target: Target, obs: seq<nat>, parts: seq<seq<nat>>)
    requires Labelled(target, obs) && |obs| < |t| && multiset(Concat(parts)) == multiset(obs)
    ensures PartsFit(t, target, parts) && Indexes(t, Sizes(parts))
  {
    ConcatSize(parts);
    SumNonNeg(Sizes(parts));
    assert |Concat(parts)| == |multiset(Concat(parts))| == |obs|;
    forall k | 0 <= k < |parts|
      ensures Labelled(target, parts[k]) && |parts[k]| < |t|
    {
      ConcatMember(parts, k);
      LabelledSub(target, obs, parts[k]);
      assert Sizes(parts)[k] == |parts[k]|;
    }
  }

  /**
   * `handleDiscVar`: nothing unless at least two levels hold `m` or more
   * observations and the split gains information; otherwise the gain, the
   * split information and the full level partition, empty levels included.
   */
  function HandleDiscVar(t: seq<real>, target: Target, codes: seq<int>, nvals: nat, obs: seq<nat>, m: nat, info: real): (r: Option<Cand>)
    requires Coded(codes, nvals, obs) && Labelled(target, obs) && m >= 1 && |obs| < |t|
    ensures CountAtLeast(Sizes(SplitDiscVar(codes, nvals, obs)), m) < 2 ==> r.None?
    ensures r.Some? ==> r.value.infoGain > 0.0 && r.value.splitValue.None?
    ensures r.Some? ==> r.value.parts == SplitDiscVar(codes, nvals, obs) && multiset(Concat(r.value.parts)) == multiset(obs)
    ensures r.Some? ==> CountAtLeast(Sizes(r.value.parts), m) >= 2
    ensures r.Some? ==> (|obs| > 0 && PartsFit(t, target, r.value.parts) &&
              r.value.infoGain == info - PartsInfo(t, target, r.value.parts) / (|obs| as real))
    ensures var parts := SplitDiscVar(codes, nvals, obs);
            (CountAtLeast(Sizes(parts), m) >= 2 && |obs| > 0 && PartsFit(t, target, parts) &&
             info - PartsInfo(t, target, parts) / (|obs| as real) > 0.0) ==> r.Some?
    ensures r.Some? && t[0] == 0.0 ==> SplitInfoOf(t, |obs|, r.value.parts, r.value.splitInfo)
  {
    var parts := SplitDiscVar(codes, nvals, obs);
    if CountAtLeast(Sizes(parts), m) < 2 then None
    else
      PartitionFits(t, target, obs, parts);
      var n := |obs|;
      BigPartsNonEmpty(Sizes(parts), m);
      ConcatSize(parts);
      var ig := info - PartsInfo(t, target, parts) / (n as real);
      if ig <= 0.0 then None
      else
        Some(Cand(ig, LevelsSplitInfo(t, n, parts), None, parts))
  }

  /** The split information loop of `handleDiscVar`, which skips empty levels. */
  function LevelsSplitInfo(t: seq<real>, n: nat, parts: seq<seq<nat>>): (si: real)
    requires 0 < n < |t| && Indexes(t, Sizes(parts))
    ensures t[0] == 0.0 ==> SplitInfoOf(t, n, parts, si)
  {
    assert t[0] == 0.0 ==> NonZeroTerms(t, Sizes(parts)) == AllTerms(t, Sizes(parts)) by {
      if t[0] == 0.0 { ZeroCountsVanish(t, Sizes(parts)); }
    }
    (t[n] - NonZeroTerms(t, Sizes(parts))) / (n as real)
  }

  /** Two parts of size at least `m >= 1` make a non-empty node. */
  lemma {:induction false} BigPartsNonEmpty(sizes: seq<int>, m: nat)
    requires m >= 1 && CountAtLeast(sizes, m) >= 1 && AllNonNeg(sizes)
    ensures Sum(sizes) >= m
  {
    SumNonNeg(sizes[1..]);
    if sizes[0] < m {
      BigPartsNonEmpty(sizes[1..], m);
    }
  }
}
