/**
 * Forest prediction (src/rforest.cpp `predict`, and the per-observation
 * predictors of package/src/rforest.h).
 *
 * Every tree routes the observation to a leaf. The leaves' labels are
 * counted into a vote vector; the class is the first label with the most
 * votes, 1-based; `prob` is the votes over the number of trees; `aprob` the
 * average of the leaves' label distributions; `waprob` their average
 * weighted by each tree's out-of-bag accuracy. The prediction type is a bit
 * mask choosing which of the five outputs are returned.
 */
module Vote {
  import opened Base
  import opened Data
  import opened Nodes
  import opened Bfs
  import opened Predict
  import Oob

  // ---------------------------------------------------------------------------
  // Prediction types (src/utility.h)

  const PRED_TYPE_NUM: nat := 5
  const PRED_TYPE_CLASS_IDX: nat := 0
  const PRED_TYPE_VOTE_IDX: nat := 1
  const PRED_TYPE_PROB_IDX: nat := 2
  const PRED_TYPE_APROB_IDX: nat := 3
  const PRED_TYPE_WAPROB_IDX: nat := 4

  const PRED_TYPE_CLASS: int := 1
  const PRED_TYPE_VOTE: int := 2
  const PRED_TYPE_PROB: int := 4
  const PRED_TYPE_APROB: int := 8
  const PRED_TYPE_WAPROB: int := 16

  /** Bit `k` of an `int` in two's complement: what `type & (1 << k)` tests. */
  function Bit(x: int, k: nat): bool
    requires Int32(x)
  {
    ((x % WORD) / Pow2(k)) % 2 == 1
  }

  /** Each type constant is `1 << idx`: it sets its own bit and no other of the five. */
  lemma TypeConstantsAreBits(k: nat)
    requires k < PRED_TYPE_NUM
    ensures Bit(PRED_TYPE_CLASS, k) <==> k == PRED_TYPE_CLASS_IDX
    ensures Bit(PRED_TYPE_VOTE, k) <==> k == PRED_TYPE_VOTE_IDX
    ensures Bit(PRED_TYPE_PROB, k) <==> k == PRED_TYPE_PROB_IDX
    ensures Bit(PRED_TYPE_APROB, k) <==> k == PRED_TYPE_APROB_IDX
    ensures Bit(PRED_TYPE_WAPROB, k) <==> k == PRED_TYPE_WAPROB_IDX
  {
    assert Pow2(0) == 1 && Pow2(1) == 2 && Pow2(2) == 4 && Pow2(3) == 8 && Pow2(4) == 16;
  }

  // ---------------------------------------------------------------------------
  // The leaves of one observation

  /** A leaf the vote can use: its label and counts cover the `nlabels` labels. */
  predicate LeafFits(r: Rec, nlabels: nat)
  {
    r.LeafRec? && 0 <= r.labelIdx < nlabels && |r.freq| == nlabels
  }

  /** `predictLeafNode` of every tree for observation `o`, in tree order. */
  function Leaves(trees: seq<Tree>, isDisc: seq<bool>, cols: seq<Column>, o: nat, nlabels: nat): (r: Result<seq<Rec>>)
    ensures r.Ok? <==> forall i :: 0 <= i < |trees| ==>
              PredictNode(trees[i], isDisc, cols, NoPerm, o).Ok? && LeafFits(PredictNode(trees[i], isDisc, cols, NoPerm, o).value, nlabels)
    ensures r.Ok? ==> |r.value| == |trees|
    ensures r.Ok? ==> forall i :: 0 <= i < |trees| ==> PredictNode(trees[i], isDisc, cols, NoPerm, o) == Ok(r.value[i])
    ensures r.Ok? ==> forall i :: 0 <= i < |r.value| ==> LeafFits(r.value[i], nlabels)
  {
    if |trees| == 0 then Ok([])
    else
      var leaf := PredictNode(trees[0], isDisc, cols, NoPerm, o);
      var rest := Leaves(trees[1..], isDisc, cols, o, nlabels);
      assert forall i :: 1 <= i < |trees| ==> trees[1..][i - 1] == trees[i];
      if leaf.Err? then Err(leaf.error)
      else if !LeafFits(leaf.value, nlabels) then Err(Malformed)
      else if rest.Err? then Err(rest.error)
      else Ok([leaf.value] + rest.value)
  }

  function LabelsOf(leaves: seq<Rec>): (r: seq<int>)
    requires forall i :: 0 <= i < |leaves| ==> leaves[i].LeafRec?
    ensures |r| == |leaves| && forall i :: 0 <= i < |leaves| ==> r[i] == leaves[i].labelIdx
  {
    seq(|leaves|, i requires 0 <= i < |leaves| => leaves[i].labelIdx)
  }

  // ---------------------------------------------------------------------------
  // Votes, class and prob

  /**
   * `predictLabelFreqCount`: one vote per tree for its leaf's label. Entry
   * `l` counts the trees voting `l`; the votes add up to the number of trees.
   */
  function Votes(labels: seq<int>, nlabels: nat): (v: seq<int>)
    requires forall i :: 0 <= i < |labels| ==> 0 <= labels[i] < nlabels
    ensures |v| == nlabels
    ensures forall l :: 0 <= l < nlabels ==> v[l] == multiset(labels)[l]
    ensures Sum(v) == |labels|
    decreases |labels|
  {
    if |labels| == 0 then
      SumZeros(nlabels);
      Zeros(nlabels)
    else
      var n := |labels| - 1;
      var x := labels[n];
      var before := labels[..n];
      assert labels == before + [x];
      var v := Votes(before, nlabels);
      Oob.Tick(v, before, x);
      SumUpdate(v, x, 1);
      var v' := v[x := v[x] + 1];
      assert forall l :: 0 <= l < nlabels ==> v'[l] == multiset(labels)[l];
      v'
  }

  /**
   * The class output: one plus the position `max_element` finds, the first
   * largest vote. An empty vote vector gives position 0.
   */
  function Class(votes: seq<int>): (c: int)
    ensures |votes| == 0 ==> c == 1
    ensures |votes| > 0 ==> 1 <= c <= |votes|
    ensures |votes| > 0 ==> forall l :: 0 <= l < |votes| ==> votes[l] <= votes[c - 1]
    ensures |votes| > 0 ==> forall l :: 0 <= l < c - 1 ==> votes[l] < votes[c - 1]
  {
    if |votes| == 0 then 1 else ArgMax(votes) + 1
  }

  /** `v[l] / x` for every entry; NaN (`None`) when `x` is 0. */
  function DivVec(v: seq<real>, x: real): (r: Option<seq<real>>)
    ensures r.Some? <==> x != 0.0
    ensures r.Some? ==> |r.value| == |v| && forall l :: 0 <= l < |v| ==> r.value[l] * x == v[l]
  {
    if x == 0.0 then None else Some(seq(|v|, l requires 0 <= l < |v| => v[l] / x))
  }

  lemma {:induction false} SumDiv(v: seq<real>, x: real)
    requires x != 0.0
    ensures SumReal(DivVec(v, x).value) == SumReal(v) / x
  {
    if |v| > 0 {
      SumDiv(v[1..], x);
      assert DivVec(v, x).value[1..] == DivVec(v[1..], x).value;
      DividesSum(v[0], SumReal(v[1..]), x);
    }
  }

  lemma DividesSum(p: real, q: real, x: real)
    requires x != 0.0
    ensures p / x + q / x == (p + q) / x
  {
  }

  function Reals(v: seq<int>): (r: seq<real>)
    ensures |r| == |v| && forall i :: 0 <= i < |v| ==> r[i] == v[i] as real
  {
    seq(|v|, i requires 0 <= i < |v| => v[i] as real)
  }

  lemma {:induction false} SumReals(v: seq<int>)
    ensures SumReal(Reals(v)) == Sum(v) as real
  {
    if |v| > 0 {
      SumReals(v[1..]);
      assert Reals(v)[1..] == Reals(v[1..]);
    }
  }

  /** `predictProbVec`: the votes over the number of trees. */
  function Prob(votes: seq<int>, ntree: nat): (r: Option<seq<real>>)
    ensures r.Some? <==> ntree != 0
    ensures r.Some? ==> |r.value| == |votes| && forall l :: 0 <= l < |votes| ==> r.value[l] * ntree as real == votes[l] as real
  {
    DivVec(Reals(votes), ntree as real)
  }

  /** With one vote per tree, the probabilities add up to 1. */
  lemma ProbSumsToOne(votes: seq<int>, ntree: nat)
    requires ntree > 0 && Sum(votes) == ntree
    ensures Prob(votes, ntree).Some? && SumReal(Prob(votes, ntree).value) == 1.0
  {
    SumReals(votes);
    SumDiv(Reals(votes), ntree as real);
    assert SumReal(Reals(votes)) == ntree as real;
    SelfQuotient(ntree as real);
  }

  lemma SelfQuotient(x: real)
    requires x != 0.0
    ensures x / x == 1.0
  {
  }

  // ---------------------------------------------------------------------------
  // aprob and waprob

  function AddVec(a: seq<real>, b: seq<real>): (r: seq<real>)
    requires |a| == |b|
    ensures |r| == |a| && forall i :: 0 <= i < |a| ==> r[i] == a[i] + b[i]
  {
    seq(|a|, i requires 0 <= i < |a| => a[i] + b[i])
  }

  lemma {:induction false} SumAdd(a: seq<real>, b: seq<real>)
    requires |a| == |b|
    ensures SumReal(AddVec(a, b)) == SumReal(a) + SumReal(b)
  {
    if |a| > 0 {
      SumAdd(a[1..], b[1..]);
      assert AddVec(a, b)[1..] == AddVec(a[1..], b[1..]);
    }
  }

  function ScaleVec(a: seq<real>, x: real): (r: seq<real>)
    ensures |r| == |a| && forall i :: 0 <= i < |a| ==> r[i] == a[i] * x
  {
    seq(|a|, i requires 0 <= i < |a| => a[i] * x)
  }

  lemma {:induction false} SumScale(a: seq<real>, x: real)
    ensures SumReal(ScaleVec(a, x)) == SumReal(a) * x
  {
    if |a| > 0 {
      SumScale(a[1..], x);
      ScaleTail(a, x);
      Distributes(a[0], SumReal(a[1..]), x);
    }
  }

  lemma ScaleTail(a: seq<real>, x: real)
    requires |a| > 0
    ensures ScaleVec(a, x)[1..] == ScaleVec(a[1..], x)
  {
    var r := ScaleVec(a, x);
    forall i | 0 <= i < |a| - 1
      ensures r[1..][i] == ScaleVec(a[1..], x)[i]
    {
      assert r[1..][i] == r[i + 1];
    }
  }

  lemma Distributes(p: real, q: real, x: real)
    ensures p * x + q * x == (p + q) * x
  {
  }

  /** A leaf whose distribution is defined and sums to 1. */
  predicate Consistent(r: Rec)
  {
    r.LeafRec? && Sum(r.freq) != 0 && (r.nobs == 0 || r.nobs == Sum(r.freq))
  }

  /**
   * The leaves' label distributions weighted by `w` and added up; NaN when
   * some leaf's distribution is, and the sum of the weights.
   */
  function Weighted(leaves: seq<Rec>, w: seq<real>, nlabels: nat): (r: (Option<seq<real>>, real))
    requires |w| == |leaves| && forall i :: 0 <= i < |leaves| ==> LeafFits(leaves[i], nlabels)
    ensures r.0.Some? <==> forall i :: 0 <= i < |leaves| ==> LabelDstr(leaves[i]).Ok?
    ensures r.0.Some? ==> |r.0.value| == nlabels
    ensures r.0.Some? ==> forall l :: 0 <= l < nlabels ==> r.0.value[l] == LabelSum(leaves, w, l)
    ensures SumReal(w) == r.1
  {
    if |leaves| == 0 then (Some(seq(nlabels, _ => 0.0)), 0.0)
    else
      var rest := Weighted(leaves[1..], w[1..], nlabels);
      var d := LabelDstr(leaves[0]);
      assert LeafFits(leaves[0], nlabels);
      assert forall i :: 1 <= i < |leaves| ==> leaves[1..][i - 1] == leaves[i];
      if d.Err? || rest.0.None? then (None, w[0] + rest.1)
      else (Some(AddVec(ScaleVec(d.value, w[0]), rest.0.value)), w[0] + rest.1)
  }

  /** With consistent leaves, the weighted distributions add up to the total weight. */
  lemma {:induction false} WeightedMass(leaves: seq<Rec>, w: seq<real>, nlabels: nat)
    requires |w| == |leaves| && forall i :: 0 <= i < |leaves| ==> LeafFits(leaves[i], nlabels) && Consistent(leaves[i])
    ensures Weighted(leaves, w, nlabels).0.Some?
    ensures SumReal(Weighted(leaves, w, nlabels).0.value) == SumReal(w)
  {
    if |leaves| == 0 {
      ZerosSum(nlabels);
    } else {
      WeightedMass(leaves[1..], w[1..], nlabels);
      DstrSumsToOne(leaves[0]);
      var d := LabelDstr(leaves[0]).value;
      SumScale(d, w[0]);
      SumAdd(ScaleVec(d, w[0]), Weighted(leaves[1..], w[1..], nlabels).0.value);
    }
  }

  /**
   * The reference for label `l`: the sum over the trees of `dstr_i[l] * w[i]`,
   * a tree whose distribution is undefined adding nothing.
   */
  function LabelSum(leaves: seq<Rec>, w: seq<real>, l: nat): real
    requires |w| == |leaves|
  {
    if |leaves| == 0 then 0.0
    else
      var d := LabelDstr(leaves[0]);
      (if d.Ok? && l < |d.value| then d.value[l] * w[0] else 0.0) + LabelSum(leaves[1..], w[1..], l)
  }

  lemma {:induction false} ZerosSum(n: nat)
    ensures SumReal(seq(n, _ => 0.0)) == 0.0
  {
    if n > 0 {
      ZerosSum(n - 1);
      assert seq(n, _ => 0.0)[1..] == seq(n - 1, _ => 0.0);
    }
  }

  function Ones(n: nat): (r: seq<real>)
    ensures |r| == n && SumReal(r) == n as real
    ensures forall i :: 0 <= i < n ==> r[i] == 1.0
  {
    if n == 0 then [] else [1.0] + Ones(n - 1)
  }

  /** `predictAprobVec`: the leaves' distributions averaged over the trees. */
  function Aprob(leaves: seq<Rec>, nlabels: nat): (r: Option<seq<real>>)
    requires forall i :: 0 <= i < |leaves| ==> LeafFits(leaves[i], nlabels)
    ensures r.Some? <==> |leaves| > 0 && forall i :: 0 <= i < |leaves| ==> LabelDstr(leaves[i]).Ok?
    ensures r.Some? ==> |r.value| == nlabels
    ensures r.Some? ==> forall l :: 0 <= l < nlabels ==>
              r.value[l] * (|leaves| as real) == LabelSum(leaves, Ones(|leaves|), l)
  {
    var sum := Weighted(leaves, Ones(|leaves|), nlabels).0;
    if sum.None? then None
    else
      DivVec(sum.value, |leaves| as real)
  }

  /** With consistent leaves, `aprob` is a distribution summing to 1. */
  lemma AprobSumsToOne(leaves: seq<Rec>, nlabels: nat)
    requires |leaves| > 0 && forall i :: 0 <= i < |leaves| ==> LeafFits(leaves[i], nlabels) && Consistent(leaves[i])
    ensures Aprob(leaves, nlabels).Some? && SumReal(Aprob(leaves, nlabels).value) == 1.0
  {
    WeightedMass(leaves, Ones(|leaves|), nlabels);
    var sum := Weighted(leaves, Ones(|leaves|), nlabels).0.value;
    UnitMass(sum, |leaves| as real);
  }

  /** A vector of mass `n`, divided by `n`, has mass 1. */
  lemma UnitMass(v: seq<real>, n: real)
    requires n != 0.0 && SumReal(v) == n
    ensures SumReal(DivVec(v, n).value) == 1.0
  {
    SumDiv(v, n);
    SelfQuotient(n);
  }

  /** Each tree's accuracy, one minus its out-of-bag error rate; NaN when some rate is. */
  function Accuracies(rates: seq<Option<real>>): (r: Option<seq<real>>)
    ensures r.Some? <==> forall i :: 0 <= i < |rates| ==> rates[i].Some?
    ensures r.Some? ==> |r.value| == |rates| && forall i :: 0 <= i < |rates| ==> r.value[i] == 1.0 - rates[i].value
  {
    if forall i :: 0 <= i < |rates| ==> rates[i].Some? then
      Some(seq(|rates|, i requires 0 <= i < |rates| => 1.0 - rates[i].value))
    else None
  }

  /** `predictWAprobVec`: the distributions weighted by accuracy, over the sum of accuracies. */
  function Waprob(leaves: seq<Rec>, rates: seq<Option<real>>, nlabels: nat): (r: Option<seq<real>>)
    requires |rates| == |leaves| && forall i :: 0 <= i < |leaves| ==> LeafFits(leaves[i], nlabels)
    ensures r.Some? <==>
              && Accuracies(rates).Some? && SumReal(Accuracies(rates).value) != 0.0
              && forall i :: 0 <= i < |leaves| ==> LabelDstr(leaves[i]).Ok?
    ensures r.Some? ==> |r.value| == nlabels
    ensures r.Some? ==> forall l :: 0 <= l < nlabels ==>
              r.value[l] * SumReal(Accuracies(rates).value) == LabelSum(leaves, Accuracies(rates).value, l)
  {
    var acc := Accuracies(rates);
    if acc.None? then None
    else
      var w := Weighted(leaves, acc.value, nlabels);
      assert w.1 == SumReal(acc.value);
      if w.0.None? then None
      else
        DivVec(w.0.value, w.1)
  }

  /** With consistent leaves and defined, not all zero, accuracies, `waprob` sums to 1. */
  lemma WaprobSumsToOne(leaves: seq<Rec>, rates: seq<Option<real>>, nlabels: nat)
    requires |rates| == |leaves| && forall i :: 0 <= i < |leaves| ==> LeafFits(leaves[i], nlabels) && Consistent(leaves[i])
    requires Accuracies(rates).Some? && SumReal(Accuracies(rates).value) != 0.0
    ensures Waprob(leaves, rates, nlabels).Some? && SumReal(Waprob(leaves, rates, nlabels).value) == 1.0
  {
    var acc := Accuracies(rates).value;
    var total := SumReal(acc);
    WeightedMass(leaves, acc, nlabels);
    var w := Weighted(leaves, acc, nlabels);
    assert SumReal(w.0.value) == total && w.1 == total;
    SumDiv(w.0.value, total);
    WaprobIs(leaves, rates, nlabels);
    SelfQuotient(total);
  }

  /** With defined accuracies and distributions, `waprob` is the weighted sum over the total accuracy. */
  lemma WaprobIs(leaves: seq<Rec>, rates: seq<Option<real>>, nlabels: nat)
    requires |rates| == |leaves| && forall i :: 0 <= i < |leaves| ==> LeafFits(leaves[i], nlabels)
    requires Accuracies(rates).Some? && SumReal(Accuracies(rates).value) != 0.0
    requires Weighted(leaves, Accuracies(rates).value, nlabels).0.Some?
    ensures Waprob(leaves, rates, nlabels) ==
            DivVec(Weighted(leaves, Accuracies(rates).value, nlabels).0.value, SumReal(Accuracies(rates).value))
  {
  }

  // ---------------------------------------------------------------------------
  // predict

  /** What the trees give one observation. */
  datatype ObsOut = ObsOut(votes: seq<int>, cls: int, prob: Option<seq<real>>, aprob: Option<seq<real>>, waprob: Option<seq<real>>)

  /** The five outputs of one observation. */
  function ObsPredict(trees: seq<Tree>, rates: seq<Option<real>>, isDisc: seq<bool>, cols: seq<Column>, o: nat, nlabels: nat): (r: Result<ObsOut>)
    requires |rates| == |trees|
    ensures r.Ok? <==> Leaves(trees, isDisc, cols, o, nlabels).Ok?
  {
    match Leaves(trees, isDisc, cols, o, nlabels)
    case Err(e) => Err(e)
    case Ok(leaves) => Ok(ObsOf(leaves, rates, |trees|, nlabels))
  }

  /** The outputs of one observation from the leaves its trees reach. */
  function ObsOf(leaves: seq<Rec>, rates: seq<Option<real>>, ntree: nat, nlabels: nat): ObsOut
    requires |rates| == |leaves| && forall i :: 0 <= i < |leaves| ==> LeafFits(leaves[i], nlabels)
  {
    FitsLabels(leaves, nlabels);
    var votes := Votes(LabelsOf(leaves), nlabels);
    ObsOut(votes, Class(votes), Prob(votes, ntree), Aprob(leaves, nlabels), Waprob(leaves, rates, nlabels))
  }

  lemma FitsLabels(leaves: seq<Rec>, nlabels: nat)
    requires forall i :: 0 <= i < |leaves| ==> LeafFits(leaves[i], nlabels)
    ensures forall i :: 0 <= i < |leaves| ==> leaves[i].LeafRec? && 0 <= leaves[i].labelIdx < nlabels
  {
    forall i | 0 <= i < |leaves|
      ensures leaves[i].LeafRec? && 0 <= leaves[i].labelIdx < nlabels
    {
      assert LeafFits(leaves[i], nlabels);
    }
  }

  /**
   * An observation's votes count, per label, the trees whose leaf carries
   * that label, and add up to the number of trees; the class has the most
   * votes and `prob` is the votes over the number of trees.
   */
  lemma ObsVotes(trees: seq<Tree>, rates: seq<Option<real>>, isDisc: seq<bool>, cols: seq<Column>, o: nat, nlabels: nat)
    requires |rates| == |trees| && ObsPredict(trees, rates, isDisc, cols, o, nlabels).Ok?
    ensures var x := ObsPredict(trees, rates, isDisc, cols, o, nlabels).value;
            var leaves := Leaves(trees, isDisc, cols, o, nlabels).value;
            && |x.votes| == nlabels && Sum(x.votes) == |trees|
            && (forall l :: 0 <= l < nlabels ==> x.votes[l] == multiset(LabelsOf(leaves))[l])
            && x.cls == Class(x.votes) && x.prob == Prob(x.votes, |trees|)
  {
  }

  /** The result list: `None` is R_NilValue. Matrices are given per observation, as after the transposition. */
  datatype Outputs = Outputs(
    cls: Option<seq<int>>,
    vote: Option<seq<seq<int>>>,
    prob: Option<seq<Option<seq<real>>>>,
    aprob: Option<seq<Option<seq<real>>>>,
    waprob: Option<seq<Option<seq<real>>>>)

  /**
   * The outputs `type` asks for, one entry per observation: an output is
   * present exactly when its bit is set.
   */
  function Assemble(rows: seq<ObsOut>, ptype: int): (r: Outputs)
    requires Int32(ptype)
    ensures r.cls.Some? <==> Bit(ptype, PRED_TYPE_CLASS_IDX)
    ensures r.vote.Some? <==> Bit(ptype, PRED_TYPE_VOTE_IDX)
    ensures r.prob.Some? <==> Bit(ptype, PRED_TYPE_PROB_IDX)
    ensures r.aprob.Some? <==> Bit(ptype, PRED_TYPE_APROB_IDX)
    ensures r.waprob.Some? <==> Bit(ptype, PRED_TYPE_WAPROB_IDX)
    ensures r.cls.Some? ==> |r.cls.value| == |rows| && forall o :: 0 <= o < |rows| ==> r.cls.value[o] == rows[o].cls
    ensures r.vote.Some? ==> |r.vote.value| == |rows| && forall o :: 0 <= o < |rows| ==> r.vote.value[o] == rows[o].votes
    ensures r.prob.Some? ==> |r.prob.value| == |rows| && forall o :: 0 <= o < |rows| ==> r.prob.value[o] == rows[o].prob
    ensures r.aprob.Some? ==> |r.aprob.value| == |rows| && forall o :: 0 <= o < |rows| ==> r.aprob.value[o] == rows[o].aprob
    ensures r.waprob.Some? ==> |r.waprob.value| == |rows| && forall o :: 0 <= o < |rows| ==> r.waprob.value[o] == rows[o].waprob
  {
    var n := |rows|;
    Outputs(
      if Bit(ptype, PRED_TYPE_CLASS_IDX) then Some(seq(n, o requires 0 <= o < n => rows[o].cls)) else None,
      if Bit(ptype, PRED_TYPE_VOTE_IDX) then Some(seq(n, o requires 0 <= o < n => rows[o].votes)) else None,
      if Bit(ptype, PRED_TYPE_PROB_IDX) then Some(seq(n, o requires 0 <= o < n => rows[o].prob)) else None,
      if Bit(ptype, PRED_TYPE_APROB_IDX) then Some(seq(n, o requires 0 <= o < n => rows[o].aprob)) else None,
      if Bit(ptype, PRED_TYPE_WAPROB_IDX) then Some(seq(n, o requires 0 <= o < n => rows[o].waprob)) else None)
  }

  /** Every observation's outputs, or the first error met. */
  function ObsRows(trees: seq<Tree>, rates: seq<Option<real>>, isDisc: seq<bool>, cols: seq<Column>, nobs: nat, nlabels: nat): (r: Result<seq<ObsOut>>)
    requires |rates| == |trees|
    ensures r.Ok? <==> forall o :: 0 <= o < nobs ==> ObsPredict(trees, rates, isDisc, cols, o, nlabels).Ok?
    ensures r.Ok? ==> |r.value| == nobs && forall o :: 0 <= o < nobs ==> r.value[o] == ObsPredict(trees, rates, isDisc, cols, o, nlabels).value
  {
    var xs := seq(nobs, o requires 0 <= o < nobs => ObsPredict(trees, rates, isDisc, cols, o, nlabels));
    assert forall o :: 0 <= o < nobs ==> xs[o] == ObsPredict(trees, rates, isDisc, cols, o, nlabels);
    AllOk(xs)
  }

  /**
   * `RForest::predict(data, type)`: the outputs `type` asks for over every
   * observation. The votes are counted whenever the class is asked for,
   * since the class is read off them, but are returned only when asked for
   * themselves.
   */
  function PredictForest(trees: seq<Tree>, rates: seq<Option<real>>, isDisc: seq<bool>, cols: seq<Column>,
                         nobs: nat, nlabels: nat, ptype: int): (r: Result<Outputs>)
    requires |rates| == |trees| && Int32(ptype)
    ensures r.Ok? <==> ObsRows(trees, rates, isDisc, cols, nobs, nlabels).Ok?
    ensures r.Ok? ==> r.value == Assemble(ObsRows(trees, rates, isDisc, cols, nobs, nlabels).value, ptype)
  {
    match ObsRows(trees, rates, isDisc, cols, nobs, nlabels)
    case Err(e) => Err(e)
    case Ok(rows) => Ok(Assemble(rows, ptype))
  }

  /**
   * What `predict` returns: the outputs whose bits `type` sets, each with one
   * entry per observation, the class and the votes being those the trees
   * give that observation.
   */
  lemma ForestOutputs(trees: seq<Tree>, rates: seq<Option<real>>, isDisc: seq<bool>, cols: seq<Column>,
                      nobs: nat, nlabels: nat, ptype: int)
    requires |rates| == |trees| && Int32(ptype)
    requires PredictForest(trees, rates, isDisc, cols, nobs, nlabels, ptype).Ok?
    ensures var out := PredictForest(trees, rates, isDisc, cols, nobs, nlabels, ptype).value;
            && (out.cls.Some? <==> Bit(ptype, PRED_TYPE_CLASS_IDX))
            && (out.vote.Some? <==> Bit(ptype, PRED_TYPE_VOTE_IDX))
            && (out.prob.Some? <==> Bit(ptype, PRED_TYPE_PROB_IDX))
            && (out.aprob.Some? <==> Bit(ptype, PRED_TYPE_APROB_IDX))
            && (out.waprob.Some? <==> Bit(ptype, PRED_TYPE_WAPROB_IDX))
    ensures var out := PredictForest(trees, rates, isDisc, cols, nobs, nlabels, ptype).value;
            out.cls.Some? ==> (|out.cls.value| == nobs &&
              forall o :: 0 <= o < nobs ==> out.cls.value[o] == ObsPredict(trees, rates, isDisc, cols, o, nlabels).value.cls)
    ensures var out := PredictForest(trees, rates, isDisc, cols, nobs, nlabels, ptype).value;
            out.vote.Some? ==> (|out.vote.value| == nobs &&
              forall o :: 0 <= o < nobs ==> out.vote.value[o] == ObsPredict(trees, rates, isDisc, cols, o, nlabels).value.votes)
  {
    var rows := ObsRows(trees, rates, isDisc, cols, nobs, nlabels).value;
    var out := Assemble(rows, ptype);
    assert PredictForest(trees, rates, isDisc, cols, nobs, nlabels, ptype).value == out;
  }

  /**
   * The class `predict` gives an observation is a label with the most votes
   * among that observation's votes, which add up to the number of trees.
   */
  lemma ClassHasMostVotes(trees: seq<Tree>, rates: seq<Option<real>>, isDisc: seq<bool>, cols: seq<Column>,
                          nobs: nat, nlabels: nat, ptype: int, o: nat)
    requires |rates| == |trees| && Int32(ptype) && o < nobs && nlabels > 0
    requires PredictForest(trees, rates, isDisc, cols, nobs, nlabels, ptype).Ok? && Bit(ptype, PRED_TYPE_CLASS_IDX)
    ensures var c := PredictForest(trees, rates, isDisc, cols, nobs, nlabels, ptype).value.cls;
            var x := ObsPredict(trees, rates, isDisc, cols, o, nlabels).value;
            && c.Some? && |c.value| == nobs && 1 <= c.value[o] <= nlabels
            && Sum(x.votes) == |trees|
            && forall l :: 0 <= l < nlabels ==> x.votes[l] <= x.votes[c.value[o] - 1]
  {
    ForestOutputs(trees, rates, isDisc, cols, nobs, nlabels, ptype);
    ObsVotes(trees, rates, isDisc, cols, o, nlabels);
  }
}
