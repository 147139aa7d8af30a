/**
 * Out-of-bag measures of one tree (src/tree.cpp): `calcOOBMeasures` and
 * `permute`.
 *
 * The tree's out-of-bag observations are predicted and the mismatches
 * counted, overall and per actual label. For permutation importance each
 * variable some internal node splits on has its column shuffled by
 * Fisher–Yates swaps, the out-of-bag set is predicted again, and the
 * increase of the error rates is recorded; every other variable keeps 0.
 */
module Oob {
  import opened Base
  import opened Data
  import opened Nodes
  import opened Bfs
  import opened Predict

  // ---------------------------------------------------------------------------
  // Permutation

  function Swap<T>(a: seq<T>, i: nat, j: nat): (r: seq<T>)
    requires i < |a| && j < |a|
    ensures |r| == |a| && r[i] == a[j] && r[j] == a[i]
    ensures forall k :: 0 <= k < |a| && k != i && k != j ==> r[k] == a[k]
    ensures multiset(r) == multiset(a)
  {
    a[i := a[j]][j := a[i]]
  }

  /**
   * The swaps for positions `i` down to 1; draw `k` picks the partner of
   * position `i` uniformly from `[0, i]`. Positions above `i` are final.
   */
  function ShuffleDown<T>(a: seq<T>, i: nat, s: Stream, k: nat): (r: seq<T>)
    requires i < |a|
    ensures |r| == |a| && multiset(r) == multiset(a)
    ensures forall p :: i < p < |a| ==> r[p] == a[p]
    decreases i
  {
    if i == 0 then a
    else ShuffleDown(Swap(a, i, Uniform(s, k, i + 1)), i - 1, s, k + 1)
  }

  /** The Fisher–Yates loop of `permute` over a whole buffer, draws taken in order from `s`. */
  function Shuffle<T>(a: seq<T>, s: Stream): (r: seq<T>)
    ensures |r| == |a| && multiset(r) == multiset(a)
  {
    if |a| == 0 then a else ShuffleDown(a, |a| - 1, s, 0)
  }

  /** The last position receives the entry the first draw picks, and keeps it. */
  lemma {:induction false} ShuffleLast<T>(a: seq<T>, s: Stream)
    requires |a| >= 2
    ensures Shuffle(a, s)[|a| - 1] == a[Uniform(s, 0, |a|)]
  {
    var n := |a| - 1;
    var b := Swap(a, n, Uniform(s, 0, n + 1));
    assert Shuffle(a, s) == ShuffleDown(a, n, s, 0);
    assert ShuffleDown(a, n, s, 0) == ShuffleDown(b, n - 1, s, 1);
  }

  /** `copyPermData`: a column's values as doubles. */
  function ColumnData(col: Column): (r: seq<real>)
    ensures |r| == Rows(col) && forall o :: 0 <= o < Rows(col) ==> r[o] == ColumnValue(col, o)
  {
    seq(Rows(col), o requires 0 <= o < Rows(col) => ColumnValue(col, o))
  }

  /**
   * `permute(v)`: variable `v` becomes the permuted one and its buffer a
   * shuffle of its column, drawn from the engine seeded with the tree's seed.
   */
  function Permute(cols: seq<Column>, v: nat, s: Stream): (r: Perm)
    requires v < |cols|
    ensures r.v == v as int
    ensures |r.data| == Rows(cols[v]) && multiset(r.data) == multiset(ColumnData(cols[v]))
  {
    Perm(v, Shuffle(ColumnData(cols[v]), s))
  }

  // ---------------------------------------------------------------------------
  // Out-of-bag predictions and their errors

  /** The labels predicted for the out-of-bag observations, in order; a failed prediction is reported. */
  function OobPredict(t: Tree, isDisc: seq<bool>, cols: seq<Column>, perm: Perm, oob: seq<nat>): (r: Result<seq<int>>)
    ensures r.Ok? <==> forall i :: 0 <= i < |oob| ==> PredictLabel(t, isDisc, cols, perm, oob[i]).Ok?
    ensures r.Ok? ==> |r.value| == |oob|
    ensures r.Ok? ==> forall i :: 0 <= i < |oob| ==> r.value[i] == PredictLabel(t, isDisc, cols, perm, oob[i]).value
  {
    if |oob| == 0 then Ok([])
    else
      match PredictLabel(t, isDisc, cols, perm, oob[0])
      case Err(e) => Err(e)
      case Ok(p) =>
        var rest := OobPredict(t, isDisc, cols, perm, oob[1..]);
        assert forall i :: 1 <= i < |oob| ==> oob[1..][i - 1] == oob[i];
        if rest.Err? then Err(rest.error) else Ok([p] + rest.value)
  }

  /** The 0-based actual labels of the observations. */
  function Actual(target: Target, oob: seq<nat>): (r: seq<int>)
    requires Labelled(target, oob)
    ensures |r| == |oob|
    ensures forall i :: 0 <= i < |oob| ==> r[i] == target.labels[oob[i]] - 1 && 0 <= r[i] < target.nlabels
  {
    seq(|oob|, i requires 0 <= i < |oob| => target.labels[oob[i]] - 1)
  }

  /** The actual labels of the mispredicted observations, in order. */
  function Missed(preds: seq<int>, actual: seq<int>): (r: seq<int>)
    requires |preds| == |actual|
    decreases |actual|
  {
    if |actual| == 0 then []
    else
      var n := |actual| - 1;
      Missed(preds[..n], actual[..n]) + (if preds[n] != actual[n] then [actual[n]] else [])
  }

  /** No observation is mispredicted exactly when every prediction is the actual label. */
  lemma {:induction false} MissedNone(preds: seq<int>, actual: seq<int>)
    requires |preds| == |actual|
    ensures |Missed(preds, actual)| == 0 <==> preds == actual
    decreases |actual|
  {
    if |actual| > 0 {
      var n := |actual| - 1;
      MissedNone(preds[..n], actual[..n]);
      assert preds == preds[..n] + [preds[n]] && actual == actual[..n] + [actual[n]];
    }
  }

  /** A label's mispredictions are among its observations. */
  lemma {:induction false} MissedWithin(preds: seq<int>, actual: seq<int>, l: int)
    requires |preds| == |actual|
    ensures multiset(Missed(preds, actual))[l] <= multiset(actual)[l]
    decreases |actual|
  {
    if |actual| > 0 {
      var n := |actual| - 1;
      MissedWithin(preds[..n], actual[..n], l);
      MissedStep(preds, actual, n);
      assert preds[..n + 1] == preds && actual[..n + 1] == actual;
    }
  }

  /** One more observation extends the mispredictions by at most its own label. */
  lemma MissedStep(preds: seq<int>, actual: seq<int>, i: nat)
    requires |preds| == |actual| && i < |actual|
    ensures Missed(preds[..i + 1], actual[..i + 1]) ==
              Missed(preds[..i], actual[..i]) + (if preds[i] != actual[i] then [actual[i]] else [])
    ensures actual[..i + 1] == actual[..i] + [actual[i]]
  {
    assert actual[..i + 1] == actual[..i] + [actual[i]];
    assert preds[..i + 1][..i] == preds[..i] && actual[..i + 1][..i] == actual[..i];
  }

  /** Counting one more occurrence of `x`. */
  lemma Tick(counts: seq<int>, before: seq<int>, x: int)
    requires 0 <= x < |counts| && forall l :: 0 <= l < |counts| ==> counts[l] == multiset(before)[l]
    ensures forall l :: 0 <= l < |counts| ==> counts[x := counts[x] + 1][l] == multiset(before + [x])[l]
  {
    assert multiset(before + [x]) == multiset(before) + multiset{x};
  }

  /** A vector counting every entry of `xs`, all below its length, sums to `|xs|`. */
  lemma {:induction false} SumCounts(counts: seq<int>, xs: seq<int>)
    requires forall l :: 0 <= l < |counts| ==> counts[l] == multiset(xs)[l]
    requires forall i :: 0 <= i < |xs| ==> 0 <= xs[i] < |counts|
    ensures Sum(counts) == |xs|
    decreases |xs|
  {
    if |xs| == 0 {
      assert counts == Zeros(|counts|);
      SumZeros(|counts|);
    } else {
      var n := |xs| - 1;
      var x := xs[n];
      assert xs == xs[..n] + [x];
      var c := counts[x := counts[x] - 1];
      SumCounts(c, xs[..n]);
      SumUpdate(c, x, 1);
      assert c[x := c[x] + 1] == counts;
    }
  }

  /** Every misprediction's label is one of the actual labels. */
  lemma {:induction false} MissedFrom(preds: seq<int>, actual: seq<int>)
    requires |preds| == |actual|
    ensures forall x :: x in Missed(preds, actual) ==> x in actual
    decreases |actual|
  {
    if |actual| > 0 {
      var n := |actual| - 1;
      MissedFrom(preds[..n], actual[..n]);
      assert forall x :: x in actual[..n] ==> x in actual;
    }
  }

  /** `error_oob`, the per-label mismatch counts and `labelcounts`. */
  datatype Tally = Tally(errors: nat, labelErrs: seq<int>, labelCounts: seq<int>)

  /** The counts after the first `i` observations. */
  ghost predicate Counted(preds: seq<int>, actual: seq<int>, i: nat, nlabels: nat, c: Tally)
    requires |preds| == |actual| && i <= |actual|
  {
    && |c.labelErrs| == nlabels && |c.labelCounts| == nlabels
    && c.errors == |Missed(preds[..i], actual[..i])|
    && (forall l :: 0 <= l < nlabels ==> c.labelCounts[l] == multiset(actual[..i])[l])
    && (forall l :: 0 <= l < nlabels ==> c.labelErrs[l] == multiset(Missed(preds[..i], actual[..i]))[l])
  }

  /** One iteration of the counting loop keeps the counts. */
  lemma CountedStep(preds: seq<int>, actual: seq<int>, i: nat, nlabels: nat, c: Tally)
    requires |preds| == |actual| && i < |actual| && 0 <= actual[i] < nlabels
    requires Counted(preds, actual, i, nlabels, c)
    ensures var a := actual[i];
            Counted(preds, actual, i + 1, nlabels,
                    if preds[i] != a then Tally(c.errors + 1, c.labelErrs[a := c.labelErrs[a] + 1], c.labelCounts[a := c.labelCounts[a] + 1])
                    else c.(labelCounts := c.labelCounts[a := c.labelCounts[a] + 1]))
  {
    var a := actual[i];
    MissedStep(preds, actual, i);
    Tick(c.labelCounts, actual[..i], a);
    if preds[i] != a {
      Tick(c.labelErrs, Missed(preds[..i], actual[..i]), a);
    }
  }

  /** The per-label mismatch counts of all observations sum to the total. */
  lemma CountedSum(preds: seq<int>, actual: seq<int>, nlabels: nat, c: Tally)
    requires |preds| == |actual| && forall i :: 0 <= i < |actual| ==> 0 <= actual[i] < nlabels
    requires Counted(preds, actual, |actual|, nlabels, c)
    ensures Sum(c.labelErrs) == c.errors
  {
    var missed := Missed(preds, actual);
    assert preds[..|preds|] == preds && actual[..|actual|] == actual;
    MissedFrom(preds, actual);
    forall i | 0 <= i < |missed|
      ensures 0 <= missed[i] < nlabels
    {
      assert missed[i] in missed;
      var j :| 0 <= j < |actual| && actual[j] == missed[i];
    }
    SumCounts(c.labelErrs, missed);
  }

  /**
   * The counting loop of `calcOOBMeasures`: every observation counts for its
   * actual label, and a mismatch counts overall and for the actual label.
   */
  method CountErrors(preds: seq<int>, actual: seq<int>, nlabels: nat) returns (r: Tally)
    requires |preds| == |actual|
    requires forall i :: 0 <= i < |actual| ==> 0 <= actual[i] < nlabels
    ensures |r.labelErrs| == nlabels && |r.labelCounts| == nlabels
    ensures r.errors == |Missed(preds, actual)|
    ensures forall l :: 0 <= l < nlabels ==> r.labelCounts[l] == multiset(actual)[l]
    ensures forall l :: 0 <= l < nlabels ==> r.labelErrs[l] == multiset(Missed(preds, actual))[l]
    ensures Sum(r.labelErrs) == r.errors
  {
    var errors := 0;
    var errs := Zeros(nlabels);
    var counts := Zeros(nlabels);
    for i := 0 to |actual|
      invariant Counted(preds, actual, i, nlabels, Tally(errors, errs, counts))
    {
      var a := actual[i];
      CountedStep(preds, actual, i, nlabels, Tally(errors, errs, counts));
      counts := counts[a := counts[a] + 1];
      if preds[i] != a {
        errs := errs[a := errs[a] + 1];
        errors := errors + 1;
      }
    }
    assert preds[..|preds|] == preds && actual[..|actual|] == actual;
    CountedSum(preds, actual, nlabels, Tally(errors, errs, counts));
    r := Tally(errors, errs, counts);
  }

  /** A difference of doubles, NaN when either is. */
  function Minus(a: Option<real>, b: Option<real>): (r: Option<real>)
    ensures r.Some? <==> a.Some? && b.Some?
    ensures r.Some? ==> r.value + b.value == a.value
  {
    if a.Some? && b.Some? then Some(a.value - b.value) else None
  }

  /** Mismatch rates are fractions: each lies in [0, 1]. */
  lemma RatesAreFractions(preds: seq<int>, actual: seq<int>, l: int)
    requires |preds| == |actual|
    ensures Rate(|Missed(preds, actual)|, |actual|).Some? ==> 0.0 <= Rate(|Missed(preds, actual)|, |actual|).value <= 1.0
    ensures Rate(multiset(Missed(preds, actual))[l], multiset(actual)[l]).Some? ==>
              0.0 <= Rate(multiset(Missed(preds, actual))[l], multiset(actual)[l]).value <= 1.0
  {
    MissedLength(preds, actual);
    MissedWithin(preds, actual, l);
    if |actual| != 0 {
      Fraction(|Missed(preds, actual)|, |actual|);
    }
    if multiset(actual)[l] != 0 {
      Fraction(multiset(Missed(preds, actual))[l], multiset(actual)[l]);
    }
  }

  lemma Fraction(num: int, den: int)
    requires 0 <= num <= den && den > 0
    ensures 0.0 <= num as real / den as real <= 1.0
  {
    var q := num as real / den as real;
    assert q * den as real == num as real;
  }

  lemma {:induction false} MissedLength(preds: seq<int>, actual: seq<int>)
    requires |preds| == |actual|
    ensures |Missed(preds, actual)| <= |actual|
    decreases |actual|
  {
    if |actual| > 0 {
      MissedLength(preds[..|actual| - 1], actual[..|actual| - 1]);
    }
  }

  // ---------------------------------------------------------------------------
  // calcOOBMeasures

  /** What `calcOOBMeasures` leaves: the predictions, the error rates and, with importance, one column per variable. */
  datatype Measures = Measures(preds: seq<int>, errorRate: Option<real>, labelRates: seq<Option<real>>, permVis: seq<seq<Option<real>>>)

  /** The baseline figures for predictions `preds` of observations whose actual labels are `actual`. */
  ghost predicate Baseline(m: Measures, preds: seq<int>, actual: seq<int>, nlabels: nat)
    requires |preds| == |actual|
  {
    && m.preds == preds
    && m.errorRate == Rate(|Missed(preds, actual)|, |actual|)
    && |m.labelRates| == nlabels
    && forall l :: 0 <= l < nlabels ==> m.labelRates[l] == Rate(multiset(Missed(preds, actual))[l], multiset(actual)[l])
  }

  /**
   * Column `v` of the importance matrix: 0 for a variable no node splits on;
   * otherwise, once `v` is permuted, the increase of each label's error rate
   * (rows 0..nlabels-1) and of the overall error rate (row nlabels).
   */
  ghost predicate ColumnFor(t: Tree, isDisc: seq<bool>, cols: seq<Column>, oob: seq<nat>, actual: seq<int>, s: Stream,
                            m: Measures, v: nat, col: seq<Option<real>>)
    requires v < |cols| && |actual| == |oob| && |m.labelRates| + 1 == |col|
  {
    var nlabels := |m.labelRates|;
    if !UsedVars(t, |cols|)[v] then
      forall row :: 0 <= row < |col| ==> col[row] == Some(0.0)
    else
      var pp := OobPredict(t, isDisc, cols, Permute(cols, v, s), oob);
      && pp.Ok?
      && col[nlabels] == Minus(Rate(|Missed(pp.value, actual)|, |actual|), m.errorRate)
      && forall l :: 0 <= l < nlabels ==>
           col[l] == Minus(Rate(multiset(Missed(pp.value, actual))[l], multiset(actual)[l]), m.labelRates[l])
  }

  /** Some variable whose column needs a permuted prediction cannot be predicted. */
  ghost predicate PermFails(t: Tree, isDisc: seq<bool>, cols: seq<Column>, oob: seq<nat>, s: Stream)
  {
    exists v :: 0 <= v < |cols| && UsedVars(t, |cols|)[v] && OobPredict(t, isDisc, cols, Permute(cols, v, s), oob).Err?
  }

  /**
   * `calcOOBMeasures(importance)` with draws `s` from the engine seeded with
   * the tree's final seed. Each permutation starts from that same seed.
   */
  method CalcOobMeasures(t: Tree, isDisc: seq<bool>, cols: seq<Column>, target: Target, oob: seq<nat>,
                         importance: bool, s: Stream) returns (r: Result<Measures>)
    requires Labelled(target, oob)
    ensures r.Err? <==> OobPredict(t, isDisc, cols, NoPerm, oob).Err? || (importance && PermFails(t, isDisc, cols, oob, s))
    ensures r.Ok? ==> Baseline(r.value, OobPredict(t, isDisc, cols, NoPerm, oob).value, Actual(target, oob), target.nlabels)
    ensures r.Ok? && !importance ==> r.value.permVis == []
    ensures r.Ok? && importance ==> |r.value.permVis| == |cols|
    ensures r.Ok? && importance ==> forall v :: 0 <= v < |cols| ==>
              (|r.value.permVis[v]| == target.nlabels + 1 &&
               ColumnFor(t, isDisc, cols, oob, Actual(target, oob), s, r.value, v, r.value.permVis[v]))
  {
    var actual := Actual(target, oob);
    var nlabels := target.nlabels;
    var base := OobPredict(t, isDisc, cols, NoPerm, oob);
    if base.Err? {
      return Err(base.error);
    }
    var tally := CountErrors(base.value, actual, nlabels);
    var errorRate := Rate(tally.errors, |oob|);
    var labelRates := seq(nlabels, l requires 0 <= l < nlabels => Rate(tally.labelErrs[l], tally.labelCounts[l]));
    var m := Measures(base.value, errorRate, labelRates, []);
    assert Baseline(m, base.value, actual, nlabels);
    if !importance {
      return Ok(m);
    }
    var vis := PermImportance(t, isDisc, cols, oob, actual, nlabels, s, m);
    if vis.Err? {
      return Err(vis.error);
    }
    r := Ok(m.(permVis := vis.value));
  }

  /** The importance loop over every variable, in index order. */
  method PermImportance(t: Tree, isDisc: seq<bool>, cols: seq<Column>, oob: seq<nat>, actual: seq<int>, nlabels: nat,
                        s: Stream, m: Measures) returns (r: Result<seq<seq<Option<real>>>>)
    requires |actual| == |oob| && |m.labelRates| == nlabels
    requires forall i :: 0 <= i < |actual| ==> 0 <= actual[i] < nlabels
    ensures r.Err? <==> PermFails(t, isDisc, cols, oob, s)
    ensures r.Ok? ==> |r.value| == |cols|
    ensures r.Ok? ==> forall v :: 0 <= v < |cols| ==>
              (|r.value[v]| == nlabels + 1 && ColumnFor(t, isDisc, cols, oob, actual, s, m, v, r.value[v]))
  {
    var vis: seq<seq<Option<real>>> := [];
    for v := 0 to |cols|
      invariant |vis| == v
      invariant ColumnsFor(t, isDisc, cols, oob, actual, s, m, vis)
    {
      var col := ImportanceColumn(t, isDisc, cols, oob, actual, nlabels, s, m, v);
      if col.Err? {
        return Err(col.error);
      }
      ColumnsAppend(t, isDisc, cols, oob, actual, s, m, vis, col.value);
      vis := vis + [col.value];
    }
    ColumnsOk(t, isDisc, cols, oob, actual, s, m, vis);
    r := Ok(vis);
  }

  /** The first `|vis|` columns are as `ColumnFor` states. */
  ghost predicate ColumnsFor(t: Tree, isDisc: seq<bool>, cols: seq<Column>, oob: seq<nat>, actual: seq<int>, s: Stream,
                             m: Measures, vis: seq<seq<Option<real>>>)
    requires |actual| == |oob|
  {
    && |vis| <= |cols|
    && forall w :: 0 <= w < |vis| ==>
         (|vis[w]| == |m.labelRates| + 1 && ColumnFor(t, isDisc, cols, oob, actual, s, m, w, vis[w]))
  }

  lemma ColumnsAppend(t: Tree, isDisc: seq<bool>, cols: seq<Column>, oob: seq<nat>, actual: seq<int>, s: Stream,
                      m: Measures, vis: seq<seq<Option<real>>>, col: seq<Option<real>>)
    requires |actual| == |oob| && |vis| < |cols| && ColumnsFor(t, isDisc, cols, oob, actual, s, m, vis)
    requires |col| == |m.labelRates| + 1 && ColumnFor(t, isDisc, cols, oob, actual, s, m, |vis|, col)
    ensures ColumnsFor(t, isDisc, cols, oob, actual, s, m, vis + [col])
  {
    assert forall w :: 0 <= w < |vis| ==> (vis + [col])[w] == vis[w];
  }

  /** With every column computed, no permuted prediction failed. */
  lemma ColumnsOk(t: Tree, isDisc: seq<bool>, cols: seq<Column>, oob: seq<nat>, actual: seq<int>, s: Stream,
                  m: Measures, vis: seq<seq<Option<real>>>)
    requires |actual| == |oob| && |vis| == |cols| && ColumnsFor(t, isDisc, cols, oob, actual, s, m, vis)
    ensures !PermFails(t, isDisc, cols, oob, s)
  {
    forall v | 0 <= v < |cols| && UsedVars(t, |cols|)[v]
      ensures OobPredict(t, isDisc, cols, Permute(cols, v, s), oob).Ok?
    {
      assert ColumnFor(t, isDisc, cols, oob, actual, s, m, v, vis[v]);
    }
  }

  /** One variable's column: zeros when no node splits on it, else the permuted error increases. */
  method ImportanceColumn(t: Tree, isDisc: seq<bool>, cols: seq<Column>, oob: seq<nat>, actual: seq<int>, nlabels: nat,
                          s: Stream, m: Measures, v: nat) returns (r: Result<seq<Option<real>>>)
    requires |actual| == |oob| && |m.labelRates| == nlabels && v < |cols|
    requires forall i :: 0 <= i < |actual| ==> 0 <= actual[i] < nlabels
    ensures r.Err? <==> UsedVars(t, |cols|)[v] && OobPredict(t, isDisc, cols, Permute(cols, v, s), oob).Err?
    ensures r.Ok? ==> |r.value| == nlabels + 1 && ColumnFor(t, isDisc, cols, oob, actual, s, m, v, r.value)
  {
    if !UsedVars(t, |cols|)[v] {
      return Ok(seq(nlabels + 1, _ => Some(0.0)));
    }
    var pp := OobPredict(t, isDisc, cols, Permute(cols, v, s), oob);
    if pp.Err? {
      return Err(pp.error);
    }
    var tally := CountErrors(pp.value, actual, nlabels);
    var col := seq(nlabels + 1, row requires 0 <= row <= nlabels =>
      if row == nlabels then Minus(Rate(tally.errors, |oob|), m.errorRate)
      else Minus(Rate(tally.labelErrs[row], tally.labelCounts[row]), m.labelRates[row]));
    r := Ok(col);
  }

  /**
   * Skipping the variables no node splits on loses nothing: permuting one
   * leaves every prediction unchanged, so its increase would be 0 anyway.
   */
  lemma UnusedPermChangesNothing(t: Tree, isDisc: seq<bool>, cols: seq<Column>, oob: seq<nat>, v: nat, s: Stream)
    requires v < |cols| && !UsedVars(t, |cols|)[v]
    ensures OobPredict(t, isDisc, cols, Permute(cols, v, s), oob) == OobPredict(t, isDisc, cols, NoPerm, oob)
  {
    var p := Permute(cols, v, s);
    forall u | Sub(t, u) && u.head.InternalRec?
      ensures u.head.varIdx != v
    {
      UsedIff(t, |cols|, v);
    }
    forall i | 0 <= i < |oob|
      ensures PredictLabel(t, isDisc, cols, p, oob[i]) == PredictLabel(t, isDisc, cols, NoPerm, oob[i])
    {
      UnusedPermIgnored(t, isDisc, cols, v, p.data, oob[i]);
    }
    OobPredictAlike(t, isDisc, cols, p, NoPerm, oob);
  }

  lemma {:induction false} OobPredictAlike(t: Tree, isDisc: seq<bool>, cols: seq<Column>, p: Perm, q: Perm, oob: seq<nat>)
    requires forall i :: 0 <= i < |oob| ==> PredictLabel(t, isDisc, cols, p, oob[i]) == PredictLabel(t, isDisc, cols, q, oob[i])
    ensures OobPredict(t, isDisc, cols, p, oob) == OobPredict(t, isDisc, cols, q, oob)
  {
    if |oob| > 0 {
      assert forall i :: 0 <= i < |oob| - 1 ==> oob[1..][i] == oob[i + 1];
      OobPredictAlike(t, isDisc, cols, p, q, oob[1..]);
    }
  }
}
