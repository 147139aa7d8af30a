/**
 * The impurity arithmetic of the C4.5 selector (src/c4_5_var_selector.h).
 *
 * Every quantity is written with the training set's `n log2 n` table `t`,
 * whose entries are abstract reals except `t[0] == 0`.
 */
module Entropy {
  import opened Base
  import opened Data

  /** Every count of `dstr` indexes the table. */
  predicate Indexes(t: seq<real>, dstr: seq<int>)
  {
    forall i :: 0 <= i < |dstr| ==> 0 <= dstr[i] < |t|
  }

  /** The loop of `sumNlogn`: the table entries of the non-zero counts, summed. */
  function NonZeroTerms(t: seq<real>, dstr: seq<int>): real
    requires Indexes(t, dstr)
  {
    if |dstr| == 0 then 0.0
    else (if dstr[0] != 0 then t[dstr[0]] else 0.0) + NonZeroTerms(t, dstr[1..])
  }

  /** Reference sum: the table entries of all counts. */
  function AllTerms(t: seq<real>, dstr: seq<int>): real
    requires Indexes(t, dstr)
  {
    if |dstr| == 0 then 0.0 else t[dstr[0]] + AllTerms(t, dstr[1..])
  }

  /** With `t[0] == 0`, skipping the zero counts changes nothing. */
  lemma {:induction false} ZeroCountsVanish(t: seq<real>, dstr: seq<int>)
    requires Indexes(t, dstr) && |t| > 0 && t[0] == 0.0
    ensures NonZeroTerms(t, dstr) == AllTerms(t, dstr)
  {
    if |dstr| > 0 {
      ZeroCountsVanish(t, dstr[1..]);
    }
  }

  /**
   * `sumNlogn(dstr, n)`: `n log n` minus the sum of `c log c` over the
   * non-zero counts; with the table's zero entry this is the sum over all counts.
   */
  function SumNlogn(t: seq<real>, dstr: seq<int>, n: nat): (r: real)
    requires Indexes(t, dstr) && n < |t|
    ensures t[0] == 0.0 ==> r == t[n] - AllTerms(t, dstr)
  {
    assert t[0] == 0.0 ==> NonZeroTerms(t, dstr) == AllTerms(t, dstr) by {
      if t[0] == 0.0 { ZeroCountsVanish(t, dstr); }
    }
    t[n] - NonZeroTerms(t, dstr)
  }

  /** Only the count at `l` is non-zero. */
  predicate PureAt(dstr: seq<int>, l: nat)
  {
    l < |dstr| && forall i :: 0 <= i < |dstr| && i != l ==> dstr[i] == 0
  }

  lemma {:induction false} AllTermsPure(t: seq<real>, dstr: seq<int>, l: nat)
    requires Indexes(t, dstr) && |t| > 0 && t[0] == 0.0 && PureAt(dstr, l)
    ensures AllTerms(t, dstr) == t[dstr[l]]
  {
    if l == 0 {
      AllTermsZero(t, dstr[1..]);
    } else {
      assert dstr[0] == 0;
      AllTermsPure(t, dstr[1..], l - 1);
    }
  }

  lemma {:induction false} AllTermsZero(t: seq<real>, dstr: seq<int>)
    requires Indexes(t, dstr) && |t| > 0 && t[0] == 0.0
    requires forall i :: 0 <= i < |dstr| ==> dstr[i] == 0
    ensures AllTerms(t, dstr) == 0.0
  {
    if |dstr| > 0 {
      AllTermsZero(t, dstr[1..]);
    }
  }

  /** A pure distribution (one count holding all `n` observations) has no impurity. */
  lemma PureHasNoImpurity(t: seq<real>, dstr: seq<int>, n: nat, l: nat)
    requires Indexes(t, dstr) && n < |t| && t[0] == 0.0
    requires PureAt(dstr, l) && dstr[l] == n
    ensures SumNlogn(t, dstr, n) == 0.0
  {
    AllTermsPure(t, dstr, l);
  }

  /** The label counts of a set of at most |t| - 1 observations index the table. */
  lemma FreqIndexes(t: seq<real>, target: Target, obs: seq<nat>)
    requires Labelled(target, obs) && |obs| < |t|
    ensures Indexes(t, LabelFreqCount(target, obs))
  {
    SumNonNeg(LabelFreqCount(target, obs));
  }

  /**
   * `calcEntropy(obs)`: the impurity of the set's label counts divided by its
   * size. It is 0 when every observation has the same label.
   */
  function CalcEntropy(t: seq<real>, target: Target, obs: seq<nat>): (r: real)
    requires Labelled(target, obs) && 0 < |obs| < |t|
    ensures t[0] == 0.0 && HaveSameLabel(target, obs) == Ok(true) ==> r == 0.0
  {
    FreqIndexes(t, target, obs);
    var f := LabelFreqCount(target, obs);
    SameLabelMakesPure(t, target, obs);
    SumNlogn(t, f, |obs|) / (|obs| as real)
  }

  lemma SameLabelMakesPure(t: seq<real>, target: Target, obs: seq<nat>)
    requires Labelled(target, obs) && 0 < |obs| < |t|
    requires Indexes(t, LabelFreqCount(target, obs))
    ensures t[0] == 0.0 && HaveSameLabel(target, obs) == Ok(true) ==> SumNlogn(t, LabelFreqCount(target, obs), |obs|) == 0.0
  {
    if t[0] == 0.0 && HaveSameLabel(target, obs) == Ok(true) {
      SameLabelIffPure(target, obs);
      var f := LabelFreqCount(target, obs);
      var l :| 0 <= l < target.nlabels && f[l] == |obs|;
      OnlyCount(f, l);
      PureHasNoImpurity(t, f, |obs|, l);
    }
  }

  /** Non-negative counts one of which is the whole sum leave the others at zero. */
  lemma {:induction false} OnlyCount(f: seq<int>, l: nat)
    requires AllNonNeg(f) && l < |f| && f[l] == Sum(f)
    ensures PureAt(f, l)
  {
    if l == 0 {
      SumNonNeg(f[1..]);
      assert Sum(f[1..]) == 0;
      ZeroSumAllZero(f[1..]);
      assert forall i :: 1 <= i < |f| ==> f[i] == f[1..][i - 1];
    } else {
      SumNonNeg(f[1..]);
      assert f[1..][l - 1] == f[l];
      assert f[l] <= Sum(f[1..]);
      assert f[0] == 0;
      OnlyCount(f[1..], l - 1);
      assert forall i :: 1 <= i < |f| ==> f[i] == f[1..][i - 1];
    }
  }

  lemma {:induction false} ZeroSumAllZero(f: seq<int>)
    requires AllNonNeg(f) && Sum(f) == 0
    ensures forall i :: 0 <= i < |f| ==> f[i] == 0
  {
    if |f| > 0 {
      SumNonNeg(f[1..]);
      ZeroSumAllZero(f[1..]);
      assert forall i :: 1 <= i < |f| ==> f[i] == f[1..][i - 1];
    }
  }

  /** `calcBisectSubinfo`: the two sides' impurities over the total size. */
  function BisectSubinfo(t: seq<real>, ldstr: seq<int>, lnobs: nat, rdstr: seq<int>, rnobs: nat): real
    requires Indexes(t, ldstr) && Indexes(t, rdstr) && lnobs < |t| && rnobs < |t|
    requires lnobs + rnobs > 0
  {
    (SumNlogn(t, ldstr, lnobs) + SumNlogn(t, rdstr, rnobs)) / ((lnobs + rnobs) as real)
  }

  /** Exchanging the two sides leaves the sub-information unchanged. */
  lemma BisectSymmetric(t: seq<real>, ldstr: seq<int>, lnobs: nat, rdstr: seq<int>, rnobs: nat)
    requires Indexes(t, ldstr) && Indexes(t, rdstr) && lnobs < |t| && rnobs < |t|
    requires lnobs + rnobs > 0
    ensures BisectSubinfo(t, ldstr, lnobs, rdstr, rnobs) == BisectSubinfo(t, rdstr, rnobs, ldstr, lnobs)
    ensures BisectSubinfo(t, ldstr, lnobs, rdstr, rnobs) * ((lnobs + rnobs) as real)
            == SumNlogn(t, ldstr, lnobs) + SumNlogn(t, rdstr, rnobs)
  {
  }
}
