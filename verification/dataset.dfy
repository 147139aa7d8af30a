/**
 * Training data, target labels and the partitioning of observation sets
 * (src/dataset.cpp, src/dataset.h).
 *
 * Observation sets are sequences of row indexes. Discrete columns hold 1-based
 * level codes and labels are 1-based class codes, as R factors store them.
 * The `n log2 n` values are abstract: the table is built from a caller-supplied
 * function.
 */
module Data {
  import opened Base

  /** A variable's type: a factor with its level names, or a numeric column. */
  datatype VarKind = Discrete(levels: seq<string>) | Continuous

  /** A column of the data set. */
  datatype Column = Disc(codes: seq<int>) | Cont(values: seq<real>)

  /** The training set: its rows, its columns and the `n log2 n` table for n in 0..nobs. */
  datatype Dataset = Dataset(nobs: nat, cols: seq<Column>, nlogn: seq<real>)

  /** The class labels of all rows. */
  datatype Target = Target(nlabels: nat, labels: seq<int>)

  /** A table of `n log2 n` usable for sets of up to `nobs` observations. */
  predicate NlognTable(t: seq<real>, nobs: nat)
  {
    |t| == nobs + 1 && t[0] == 0.0
  }

  /**
   * The training-set constructor: zero rows are rejected; otherwise the table
   * holds `nlogn(n)` for every n from 1 to the number of rows, and 0 at n = 0.
   */
  function NewDataset(nobs: nat, cols: seq<Column>, nlogn: nat -> real): (r: Result<Dataset>)
    ensures r.Err? <==> nobs == 0
    ensures r.Err? ==> r.error == EmptyDataset
    ensures r.Ok? ==> r.value.nobs == nobs && r.value.cols == cols && NlognTable(r.value.nlogn, nobs)
    ensures r.Ok? ==> forall n :: 1 <= n <= nobs ==> r.value.nlogn[n] == nlogn(n)
  {
    if nobs == 0 then Err(EmptyDataset)
    else Ok(Dataset(nobs, cols, seq(nobs + 1, (n: int) => if n <= 0 then 0.0 else nlogn(n))))
  }

  /** Every index of `obs` names a row of `rows` rows. */
  predicate ValidObs(obs: seq<nat>, rows: nat)
  {
    forall i :: 0 <= i < |obs| ==> obs[i] < rows
  }

  /** The observations' labels are all class codes 1..nlabels. */
  predicate Labelled(t: Target, obs: seq<nat>)
  {
    && ValidObs(obs, |t.labels|)
    && forall i :: 0 <= i < |obs| ==> 1 <= t.labels[obs[i]] <= t.nlabels
  }

  /** A set drawn from a labelled set's members is labelled too. */
  lemma LabelledSub(t: Target, obs: seq<nat>, sub: seq<nat>)
    requires Labelled(t, obs) && multiset(sub) <= multiset(obs)
    ensures Labelled(t, sub)
  {
    forall i | 0 <= i < |sub|
      ensures sub[i] < |t.labels| && 1 <= t.labels[sub[i]] <= t.nlabels
    {
      assert sub[i] in multiset(sub);
      var k :| 0 <= k < |obs| && obs[k] == sub[i];
    }
  }

  /** The labels of the observations, in order. */
  function LabelsOf(t: Target, obs: seq<nat>): (r: seq<int>)
    requires ValidObs(obs, |t.labels|)
    ensures |r| == |obs| && forall i :: 0 <= i < |obs| ==> r[i] == t.labels[obs[i]]
  {
    seq(|obs|, i requires 0 <= i < |obs| => t.labels[obs[i]])
  }

  /**
   * `TargetData::haveSameLabel`: an empty set is an error; otherwise true
   * exactly when every label equals the first.
   */
  function HaveSameLabel(t: Target, obs: seq<nat>): (r: Result<bool>)
    requires ValidObs(obs, |t.labels|)
    ensures r.Err? <==> |obs| == 0
    ensures r.Err? ==> r.error == EmptyNode
    ensures r.Ok? ==> (r.value <==> forall i :: 0 <= i < |obs| ==> t.labels[obs[i]] == t.labels[obs[0]])
  {
    if |obs| == 0 then Err(EmptyNode)
    else if |obs| == 1 then Ok(true)
    else Ok(SameFrom(t, obs, 1))
  }

  /** The scan `for (i = 1; i < nobs; i++) if (label != ...) return false`. */
  function SameFrom(t: Target, obs: seq<nat>, i: nat): (r: bool)
    requires ValidObs(obs, |t.labels|) && 1 <= i <= |obs|
    ensures r <==> forall k :: i <= k < |obs| ==> t.labels[obs[k]] == t.labels[obs[0]]
    decreases |obs| - i
  {
    if i == |obs| then true
    else if t.labels[obs[0]] != t.labels[obs[i]] then false
    else SameFrom(t, obs, i + 1)
  }

  /**
   * `TargetData::getLabelFreqCount`: entry l counts the observations whose
   * label is l + 1.
   */
  function LabelFreqCount(t: Target, obs: seq<nat>): (r: seq<int>)
    requires Labelled(t, obs)
    ensures |r| == t.nlabels
    ensures Sum(r) == |obs|
    ensures AllNonNeg(r)
  {
    if |obs| == 0 then
      SumZeros(t.nlabels);
      Zeros(t.nlabels)
    else
      var init := obs[..|obs| - 1];
      var last := t.labels[obs[|obs| - 1]];
      var f := LabelFreqCount(t, init);
      SumUpdate(f, last - 1, 1);
      f[last - 1 := f[last - 1] + 1]
  }

  /** Entry l of the counts is the number of observations labelled l + 1. */
  lemma {:induction false} FreqCounts(t: Target, obs: seq<nat>)
    requires Labelled(t, obs)
    ensures forall l :: 0 <= l < t.nlabels ==> LabelFreqCount(t, obs)[l] == multiset(LabelsOf(t, obs))[l + 1]
  {
    if |obs| > 0 {
      var init := obs[..|obs| - 1];
      FreqCounts(t, init);
      assert LabelsOf(t, obs) == LabelsOf(t, init) + [t.labels[obs[|obs| - 1]]];
    }
  }

  /** All observations share one label exactly when one label's count is the whole set. */
  lemma SameLabelIffPure(t: Target, obs: seq<nat>)
    requires Labelled(t, obs) && |obs| > 0
    ensures HaveSameLabel(t, obs) == Ok(true) <==> exists l :: 0 <= l < t.nlabels && LabelFreqCount(t, obs)[l] == |obs|
  {
    if HaveSameLabel(t, obs) == Ok(true) {
      PureIfSame(t, obs);
    } else {
      var k :| 0 <= k < |obs| && t.labels[obs[k]] != t.labels[obs[0]];
      MixedNotPure(t, obs, k);
    }
  }

  lemma PureIfSame(t: Target, obs: seq<nat>)
    requires Labelled(t, obs) && |obs| > 0
    requires forall i :: 0 <= i < |obs| ==> t.labels[obs[i]] == t.labels[obs[0]]
    ensures LabelFreqCount(t, obs)[t.labels[obs[0]] - 1] == |obs|
  {
    var ls := LabelsOf(t, obs);
    FreqCounts(t, obs);
    AllEqualCount(ls, t.labels[obs[0]]);
  }

  lemma MixedNotPure(t: Target, obs: seq<nat>, k: nat)
    requires Labelled(t, obs) && k < |obs| && t.labels[obs[k]] != t.labels[obs[0]]
    ensures forall l :: 0 <= l < t.nlabels ==> LabelFreqCount(t, obs)[l] < |obs|
  {
    var ls := LabelsOf(t, obs);
    FreqCounts(t, obs);
    forall l | 0 <= l < t.nlabels
      ensures LabelFreqCount(t, obs)[l] < |obs|
    {
      if ls[0] == l + 1 {
        CountBelowLength(ls, l + 1, k);
      } else {
        CountBelowLength(ls, l + 1, 0);
      }
    }
  }

  lemma {:induction false} AllEqualCount(s: seq<int>, v: int)
    requires forall i :: 0 <= i < |s| ==> s[i] == v
    ensures multiset(s)[v] == |s|
  {
    if |s| > 0 {
      assert s == s[..|s| - 1] + [s[|s| - 1]];
      AllEqualCount(s[..|s| - 1], v);
    }
  }

  /** A value missing at position k is counted fewer times than the length. */
  lemma CountBelowLength(s: seq<int>, v: int, k: nat)
    requires k < |s| && s[k] != v
    ensures multiset(s)[v] < |s|
  {
    var a, b := s[..k], s[k + 1..];
    assert s == a + [s[k]] + b;
    assert multiset(a)[v] <= |a| && multiset(b)[v] <= |b|;
  }

  /** Reference definition of a bucket: the observations whose code is `code`, in order. */
  function Filter(codes: seq<int>, obs: seq<nat>, code: int): (r: seq<nat>)
    requires ValidObs(obs, |codes|)
  {
    if |obs| == 0 then []
    else (if codes[obs[0]] == code then [obs[0]] else []) + Filter(codes, obs[1..], code)
  }

  lemma {:induction false} FilterAppend(codes: seq<int>, obs: seq<nat>, x: nat, code: int)
    requires ValidObs(obs, |codes|) && x < |codes|
    ensures Filter(codes, obs + [x], code) == Filter(codes, obs, code) + (if codes[x] == code then [x] else [])
  {
    var ox := obs + [x];
    if |obs| == 0 {
      assert ox == [x] && ox[1..] == [];
      assert Filter(codes, ox[1..], code) == [];
    } else {
      assert ox[0] == obs[0];
      assert ox[1..] == obs[1..] + [x];
      FilterAppend(codes, obs[1..], x, code);
      calc {
        Filter(codes, ox, code);
        (if codes[obs[0]] == code then [obs[0]] else []) + Filter(codes, obs[1..] + [x], code);
        (if codes[obs[0]] == code then [obs[0]] else []) + (Filter(codes, obs[1..], code) + (if codes[x] == code then [x] else []));
        ((if codes[obs[0]] == code then [obs[0]] else []) + Filter(codes, obs[1..], code)) + (if codes[x] == code then [x] else []);
        Filter(codes, obs, code) + (if codes[x] == code then [x] else []);
      }
    }
  }

  /** The codes of the observations are all levels 1..nvals. */
  predicate Coded(codes: seq<int>, nvals: nat, obs: seq<nat>)
  {
    && ValidObs(obs, |codes|)
    && forall i :: 0 <= i < |obs| ==> 1 <= codes[obs[i]] <= nvals
  }

  /**
   * `Dataset::splitDiscVar`: one bucket per level, created even when empty;
   * each observation is appended to the bucket of its code minus one.
   */
  function SplitDiscVar(codes: seq<int>, nvals: nat, obs: seq<nat>): (r: seq<seq<nat>>)
    requires Coded(codes, nvals, obs)
    ensures |r| == nvals
    ensures forall k :: 0 <= k < nvals ==> r[k] == Filter(codes, obs, k + 1)
    ensures multiset(Concat(r)) == multiset(obs)
    ensures Sum(Sizes(r)) == |obs|
  {
    if |obs| == 0 then
      var r: seq<seq<nat>> := seq(nvals, _ => []);
      EmptyConcat(r);
      ConcatSize(r);
      r
    else
      var init := obs[..|obs| - 1];
      var x := obs[|obs| - 1];
      var b := SplitDiscVar(codes, nvals, init);
      assert obs == init + [x];
      BucketAppend(codes, nvals, init, x, b);
      b[codes[x] - 1 := b[codes[x] - 1] + [x]]
  }

  /** One step of the bucket loop keeps the buckets equal to the filters and a partition of the set. */
  lemma BucketAppend(codes: seq<int>, nvals: nat, init: seq<nat>, x: nat, b: seq<seq<nat>>)
    requires Coded(codes, nvals, init) && x < |codes| && 1 <= codes[x] <= nvals
    requires |b| == nvals && forall k :: 0 <= k < nvals ==> b[k] == Filter(codes, init, k + 1)
    requires multiset(Concat(b)) == multiset(init) && Sum(Sizes(b)) == |init|
    ensures var r := b[codes[x] - 1 := b[codes[x] - 1] + [x]];
            && (forall k :: 0 <= k < nvals ==> r[k] == Filter(codes, init + [x], k + 1))
            && multiset(Concat(r)) == multiset(init + [x])
            && Sum(Sizes(r)) == |init + [x]|
  {
    BucketFilters(codes, init, x, b);
    var c := codes[x] - 1;
    ConcatAppendLast(b, c, x);
    ConcatSize(b[c := b[c] + [x]]);
    ConcatSize(b);
  }

  lemma BucketFilters(codes: seq<int>, init: seq<nat>, x: nat, b: seq<seq<nat>>)
    requires ValidObs(init, |codes|) && x < |codes| && 1 <= codes[x] <= |b|
    requires forall k :: 0 <= k < |b| ==> b[k] == Filter(codes, init, k + 1)
    ensures var r := b[codes[x] - 1 := b[codes[x] - 1] + [x]];
            forall k :: 0 <= k < |b| ==> r[k] == Filter(codes, init + [x], k + 1)
  {
    var r := b[codes[x] - 1 := b[codes[x] - 1] + [x]];
    forall k | 0 <= k < |b|
      ensures r[k] == Filter(codes, init + [x], k + 1)
    {
      FilterAppend(codes, init, x, k + 1);
    }
  }

  lemma {:induction false} EmptyConcat<T>(r: seq<seq<T>>)
    requires forall k :: 0 <= k < |r| ==> r[k] == []
    ensures Concat(r) == []
  {
    if |r| > 0 {
      EmptyConcat(r[1..]);
    }
  }

  /**
   * `Dataset::splitPosition`: a position outside the set is an error;
   * otherwise part 0 is the observations up to and including `pos` and part 1
   * the rest, so the two parts put back together give the set unchanged.
   */
  function SplitPosition(obs: seq<nat>, pos: int): (r: Result<seq<seq<nat>>>)
    ensures r.Err? <==> pos < 0 || pos >= |obs|
    ensures r.Err? ==> r.error == BadPosition
    ensures r.Ok? ==> |r.value| == 2 && Concat(r.value) == obs
    ensures r.Ok? ==> |r.value[0]| == pos + 1 && |r.value[1]| == |obs| - pos - 1
  {
    if pos < 0 || pos >= |obs| then Err(BadPosition)
    else
      var parts := [obs[..pos + 1], obs[pos + 1..]];
      assert Concat(parts[2..]) == [];
      assert Concat(parts) == obs[..pos + 1] + (obs[pos + 1..] + []);
      assert obs[..pos + 1] + obs[pos + 1..] == obs;
      Ok(parts)
  }

  /** Position of the first occurrence of `x` in `s`: the entry a name-to-index map keeps. */
  function IndexOf(s: seq<string>, x: string): (i: nat)
    requires x in s
    ensures i < |s| && s[i] == x
    ensures forall j :: 0 <= j < i ==> s[j] != x
  {
    if s[0] == x then 0 else 1 + IndexOf(s[1..], x)
  }

  /** The level codes of a prediction-time factor column: 1..|levels|. */
  predicate FactorCodes(codes: seq<int>, nlevels: nat)
  {
    forall i :: 0 <= i < |codes| ==> 1 <= codes[i] <= nlevels
  }

  /**
   * The DISCRETE branch of `Dataset::init` at prediction time. `known` are the
   * training levels, `actual` the column's own levels. More levels than in
   * training are rejected; the same number must be the same names in the same
   * order; fewer levels must all occur among the training levels, and then
   * every code is re-pointed at the training level of the same name.
   */
  function MatchLevels(known: seq<string>, actual: seq<string>, codes: seq<int>): (r: Result<seq<int>>)
    requires FactorCodes(codes, |actual|)
    ensures r.Err? ==> r.error == UnexpectedValue
    ensures r.Err? <==>
              || |known| < |actual|
              || (|known| == |actual| && known != actual)
              || (|known| > |actual| && !(multiset(actual) <= multiset(known)))
    ensures r.Ok? ==> |r.value| == |codes| && FactorCodes(r.value, |known|)
    ensures r.Ok? ==> forall i :: 0 <= i < |codes| ==> known[r.value[i] - 1] == actual[codes[i] - 1]
  {
    if |known| < |actual| then Err(UnexpectedValue)
    else if |known| == |actual| then
      if actual == known then Ok(codes) else Err(UnexpectedValue)
    else if multiset(actual) <= multiset(known) then
      assert forall c :: 0 <= c < |actual| ==> actual[c] in multiset(known);
      var matched := seq(|actual| + 1, c requires 0 <= c <= |actual| =>
                           if c == 0 then 0 else IndexOf(known, actual[c - 1]) + 1);
      Ok(seq(|codes|, i requires 0 <= i < |codes| => matched[codes[i]]))
    else Err(UnexpectedValue)
  }
}
