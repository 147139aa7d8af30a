/**
 * Choosing the split variable of a node (src/c4_5_var_selector.cpp).
 *
 * Every variable of the subspace is evaluated into a candidate split; the
 * recorded candidates form a map keyed by variable index, read in ascending
 * key order as the source's `std::map` iterates. A variable qualifies when its
 * information gain reaches the mean gain less 1e-6 and its split information
 * is positive; among qualifying variables the largest gain ratio wins.
 */
module Selector {
  import opened Base
  import opened Data
  import Entropy
  import Splits
  import Sampling
  import Igr

  /**
   * What a node's selector reads: the `n log2 n` table, the target, the
   * columns, the number of levels of each discrete column and the minimum
   * child size.
   */
  datatype Env = Env(t: seq<real>, target: Target, cols: seq<Column>, nvals: seq<nat>, m: nat)

  /** The recorded candidates, keyed by variable index. */
  type Cands = map<nat, Splits.Cand>

  /** The outcome of a selection: no split, or a variable with its candidate and gain ratio. */
  datatype Choice = NoSplit | Split(v: nat, cand: Splits.Cand, gainRatio: Option<real>)

  /** A column's codes or values cover the observations. */
  predicate ColumnFits(col: Column, nvals: nat, obs: seq<nat>)
  {
    match col
    case Disc(codes) => Coded(codes, nvals, obs)
    case Cont(values) => ValidObs(obs, |values|)
  }

  /** A non-empty, labelled observation set every column covers. */
  predicate Fits(e: Env, obs: seq<nat>)
  {
    && Labelled(e.target, obs) && 0 < |obs| < |e.t| && e.m >= 1
    && |e.nvals| == |e.cols|
    && forall v :: 0 <= v < |e.cols| ==> ColumnFits(e.cols[v], e.nvals[v], obs)
  }

  /** Every entry of `vars` is a column index. */
  predicate VarsIn(vars: seq<int>, n: nat)
  {
    forall i :: 0 <= i < |vars| ==> 0 <= vars[i] < n
  }

  /**
   * `calcInfos` for one variable: a discrete column goes to `handleDiscVar`,
   * a numeric one to `handleContVar`.
   */
  function Evaluate(e: Env, obs: seq<nat>, info: real, v: nat): (r: Option<Splits.Cand>)
    requires Fits(e, obs) && v < |e.cols|
    ensures r.Some? ==> r.value.infoGain > 0.0 && multiset(Concat(r.value.parts)) == multiset(obs)
    ensures r.Some? ==> (e.cols[v].Disc? <==> r.value.splitValue.None?)
    ensures r.Some? && e.cols[v].Cont? ==> |r.value.parts| == 2 && |r.value.parts[0]| > 0 && |r.value.parts[1]| > 0
    ensures r.Some? && e.cols[v].Disc? ==> r.value.parts == SplitDiscVar(e.cols[v].codes, e.nvals[v], obs)
    ensures r.Some? ==> Shrinks(r.value.parts, |obs|)
  {
    assert ColumnFits(e.cols[v], e.nvals[v], obs);
    match e.cols[v]
    case Disc(codes) =>
      var r := Splits.HandleDiscVar(e.t, e.target, codes, e.nvals[v], obs, e.m, info);
      if r.Some? then
        DiscShrinks(r.value.parts, obs, e.m);
        r
      else r
    case Cont(values) =>
      var r := Splits.HandleContVar(e.t, e.target, values, obs, e.m, info);
      if r.Some? then
        var parts := r.value.parts;
        assert |parts[0]| >= e.m && |parts[1]| >= e.m + 1;
        PartsSmaller(parts, obs, 0, 1);
        r
      else r
  }

  /** Every part of a split is smaller than the node, so growing a child always makes progress. */
  predicate Shrinks(parts: seq<seq<nat>>, n: nat)
  {
    forall k :: 0 <= k < |parts| ==> |parts[k]| < n
  }

  /** Two non-empty parts of a partition of `obs` leave every part smaller than `obs`. */
  lemma PartsSmaller(parts: seq<seq<nat>>, obs: seq<nat>, i: nat, j: nat)
    requires multiset(Concat(parts)) == multiset(obs)
    requires i < |parts| && j < |parts| && i != j && |parts[i]| > 0 && |parts[j]| > 0
    ensures Shrinks(parts, |obs|)
  {
    ConcatSize(parts);
    assert |Concat(parts)| == |obs| by {
      assert |multiset(Concat(parts))| == |multiset(obs)|;
    }
    var sizes := Sizes(parts);
    forall k | 0 <= k < |parts|
      ensures |parts[k]| < |obs|
    {
      var other := if k == i then j else i;
      SumTwo(sizes, k, other);
    }
  }

  /** A level partition with two levels of at least `m >= 1` observations shrinks. */
  lemma DiscShrinks(parts: seq<seq<nat>>, obs: seq<nat>, m: nat)
    requires multiset(Concat(parts)) == multiset(obs) && m >= 1
    requires Splits.CountAtLeast(Sizes(parts), m) >= 2
    ensures Shrinks(parts, |obs|)
  {
    var i, j := TwoAtLeast(Sizes(parts), m);
    PartsSmaller(parts, obs, i, j);
  }

  lemma {:induction false} OneAtLeast(sizes: seq<int>, m: nat) returns (k: nat)
    requires Splits.CountAtLeast(sizes, m) >= 1
    ensures k < |sizes| && sizes[k] >= m
  {
    if sizes[0] >= m {
      k := 0;
    } else {
      var k' := OneAtLeast(sizes[1..], m);
      k := k' + 1;
    }
  }

  lemma {:induction false} TwoAtLeast(sizes: seq<int>, m: nat) returns (i: nat, j: nat)
    requires Splits.CountAtLeast(sizes, m) >= 2
    ensures i < j < |sizes| && sizes[i] >= m && sizes[j] >= m
  {
    if sizes[0] >= m {
      var k := OneAtLeast(sizes[1..], m);
      i, j := 0, k + 1;
    } else {
      var a, b := TwoAtLeast(sizes[1..], m);
      i, j := a + 1, b + 1;
    }
  }

  /** The candidate maps of `calcInfos(vars)`: one entry per variable that produced a candidate. */
  function Candidates(e: Env, obs: seq<nat>, info: real, vars: seq<int>): (r: Cands)
    requires Fits(e, obs) && VarsIn(vars, |e.cols|)
    ensures forall v :: v in r ==> v < |e.cols| && v in vars
    ensures forall v :: v in r ==> r[v].infoGain > 0.0 && multiset(Concat(r[v].parts)) == multiset(obs)
    ensures forall i :: 0 <= i < |vars| ==>
              (vars[i] in r <==> Evaluate(e, obs, info, vars[i]).Some?)
    ensures forall i :: 0 <= i < |vars| && vars[i] in r ==> r[vars[i] as nat] == Evaluate(e, obs, info, vars[i]).value
  {
    map v: nat | v in vars && v < |e.cols| && Evaluate(e, obs, info, v).Some? :: Evaluate(e, obs, info, v).value
  }

  // ---------------------------------------------------------------------------
  // Mean gain

  /** The keys of `cands` below `k`. */
  function KeysBelow(cands: Cands, k: nat): (r: set<nat>)
    ensures forall v :: v in r <==> v in cands && v < k
  {
    set v | v in cands.Keys && v < k
  }

  /** Sum of the recorded gains of the variables below `k`, in key order. */
  function GainTotal(cands: Cands, k: nat): real
  {
    if k == 0 then 0.0
    else GainTotal(cands, k - 1) + (if k - 1 in cands then cands[k - 1].infoGain else 0.0)
  }

  /** All keys are column indexes below `n`. */
  predicate KeysUnder(cands: Cands, n: nat)
  {
    forall v :: v in cands ==> v < n
  }

  /**
   * `averageInfoGain`: the mean recorded gain less 1e-6, so that when every
   * gain is equal every variable still reaches it.
   */
  function AverageInfoGain(cands: Cands, n: nat): (avg: real)
    requires |cands| > 0 && KeysUnder(cands, n)
    ensures (|cands| as real) * (avg + 0.000001) == GainTotal(cands, n)
  {
    GainTotal(cands, n) / (|cands| as real) - 0.000001
  }

  /** A bound on every gain below `k` bounds their total. */
  lemma {:induction false} TotalBelow(cands: Cands, k: nat, a: real)
    requires forall v :: v in cands && v < k ==> cands[v].infoGain < a
    ensures GainTotal(cands, k) <= a * (|KeysBelow(cands, k)| as real)
    ensures |KeysBelow(cands, k)| > 0 ==> GainTotal(cands, k) < a * (|KeysBelow(cands, k)| as real)
  {
    if k > 0 {
      TotalBelow(cands, k - 1, a);
      var below := KeysBelow(cands, k - 1);
      if k - 1 in cands {
        assert KeysBelow(cands, k) == below + {k - 1};
        assert k - 1 !in below;
        PlusOne(a, |below| as real);
      } else {
        assert KeysBelow(cands, k) == below;
      }
    }
  }

  lemma PlusOne(a: real, m: real)
    ensures a * (m + 1.0) == a * m + a
  {
  }

  /** Some recorded variable reaches the mean gain, so the gain filter never empties the map. */
  lemma SomeGainReachesAverage(cands: Cands, n: nat)
    requires |cands| > 0 && KeysUnder(cands, n)
    ensures exists v :: v in cands && cands[v].infoGain >= AverageInfoGain(cands, n)
  {
    var avg := AverageInfoGain(cands, n);
    if forall v :: v in cands ==> cands[v].infoGain < avg {
      TotalUnder(cands, n, avg);
    }
  }

  /** A strict bound on every recorded gain bounds the total strictly. */
  lemma TotalUnder(cands: Cands, n: nat, a: real)
    requires |cands| > 0 && KeysUnder(cands, n)
    requires forall v :: v in cands ==> cands[v].infoGain < a
    ensures GainTotal(cands, n) < a * (|cands| as real)
  {
    TotalBelow(cands, n, a);
    assert KeysBelow(cands, n) == cands.Keys;
  }

  // ---------------------------------------------------------------------------
  // Best variable

  /** The filter of `findBest` and `doIGRSelection`. */
  predicate Qualifies(c: Splits.Cand, avg: real)
  {
    c.infoGain >= avg && c.splitInfo > 0.0
  }

  function Ratio(c: Splits.Cand): real
    requires c.splitInfo > 0.0
  {
    c.infoGain / c.splitInfo
  }

  /**
   * The loop of `findBest` over the keys below `k`: the first qualifying
   * variable is taken, and a later one replaces it only with a strictly larger
   * gain ratio.
   */
  function BestBelow(cands: Cands, avg: real, k: nat): (r: Option<nat>)
    ensures r.None? <==> forall v: nat :: v < k && v in cands ==> !Qualifies(cands[v], avg)
    ensures r.Some? ==> r.value < k && r.value in cands && Qualifies(cands[r.value], avg)
    ensures r.Some? ==> forall v: nat :: v < k && v in cands && Qualifies(cands[v], avg) ==>
                          Ratio(cands[v]) <= Ratio(cands[r.value])
    ensures r.Some? ==> forall v: nat :: v < r.value && v in cands && Qualifies(cands[v], avg) ==>
                          Ratio(cands[v]) < Ratio(cands[r.value])
  {
    if k == 0 then None
    else
      var r := BestBelow(cands, avg, k - 1);
      var v := k - 1;
      if v in cands && Qualifies(cands[v], avg) && (r.None? || Ratio(cands[v]) > Ratio(cands[r.value])) then
        Some(v)
      else r
  }

  /** The smallest key below `k`, where `std::map::begin` points. */
  function FirstKey(cands: Cands, k: nat): (r: Option<nat>)
    ensures r.None? <==> forall v: nat :: v < k ==> v !in cands
    ensures r.Some? ==> r.value < k && r.value in cands && forall v: nat :: v < r.value ==> v !in cands
  {
    if k == 0 then None
    else
      var r := FirstKey(cands, k - 1);
      if r.None? && k - 1 in cands then Some(k - 1) else r
  }

  /** The fallback of both selections: the smallest key, with its gain ratio when its split information is positive. */
  function Fallback(cands: Cands, n: nat): (r: Choice)
    requires |cands| > 0 && KeysUnder(cands, n)
    ensures r.Split? && r.v in cands && r.cand == cands[r.v]
    ensures forall v: nat :: v < r.v ==> v !in cands
    ensures r.gainRatio.Some? <==> cands[r.v].splitInfo > 0.0
    ensures r.gainRatio.Some? ==> r.gainRatio.value == Ratio(cands[r.v])
  {
    var k :| k in cands;
    var f := FirstKey(cands, n);
    var v := f.value;
    var c := cands[v];
    Split(v, c, if c.splitInfo > 0.0 then Some(Ratio(c)) else None)
  }

  /**
   * `findBest`: the qualifying variable of largest gain ratio, the smallest
   * such index on ties; when none qualifies, the smallest recorded index.
   */
  function FindBest(cands: Cands, n: nat): (r: Choice)
    requires |cands| > 0 && KeysUnder(cands, n)
    ensures r.Split? && r.v in cands && r.cand == cands[r.v]
    ensures (exists v :: v in cands && Qualifies(cands[v], AverageInfoGain(cands, n))) ==>
              BestVar(cands, AverageInfoGain(cands, n), r.v) && r.gainRatio == Some(Ratio(cands[r.v]))
    ensures (forall v :: v in cands ==> !Qualifies(cands[v], AverageInfoGain(cands, n))) ==>
              r == Fallback(cands, n)
  {
    var avg := AverageInfoGain(cands, n);
    var b := BestBelow(cands, avg, n);
    if b.Some? then Split(b.value, cands[b.value], Some(Ratio(cands[b.value])))
    else Fallback(cands, n)
  }

  /**
   * Reference characterisation of the chosen variable: it qualifies, no
   * qualifying variable has a larger gain ratio, and every smaller qualifying
   * index has a strictly smaller one.
   */
  predicate BestVar(cands: Cands, avg: real, w: nat)
  {
    && w in cands && Qualifies(cands[w], avg)
    && (forall v :: v in cands && Qualifies(cands[v], avg) ==> Ratio(cands[v]) <= Ratio(cands[w]))
    && (forall v :: v in cands && v < w && Qualifies(cands[v], avg) ==> Ratio(cands[v]) < Ratio(cands[w]))
  }

  /** Exactly one variable meets the characterisation. */
  lemma BestVarUnique(cands: Cands, avg: real, w1: nat, w2: nat)
    requires BestVar(cands, avg, w1) && BestVar(cands, avg, w2)
    ensures w1 == w2
  {
  }

  /** When every recorded candidate has positive split information, `findBest` never falls back. */
  lemma FindBestQualifies(cands: Cands, n: nat)
    requires |cands| > 0 && KeysUnder(cands, n)
    requires forall v :: v in cands ==> cands[v].splitInfo > 0.0
    ensures Qualifies(FindBest(cands, n).cand, AverageInfoGain(cands, n))
  {
    SomeGainReachesAverage(cands, n);
  }

  // ---------------------------------------------------------------------------
  // The two selections

  /**
   * `setResult`: a negative index gives no split; otherwise the variable's
   * recorded candidate with the given gain ratio.
   */
  function SetResult(cands: Cands, vindex: int, gainRatio: Option<real>): (r: Choice)
    requires vindex < 0 || vindex in cands
    ensures r.NoSplit? <==> vindex < 0
    ensures r.Split? ==> r.v == vindex && r.cand == cands[vindex] && r.gainRatio == gainRatio
  {
    if vindex < 0 then NoSplit else Split(vindex, cands[vindex], gainRatio)
  }

  /**
   * `doSelection`: evaluate the subspace of `mtry` variables drawn without
   * replacement, then `findBest`; no candidate means no split.
   */
  function DoSelection(e: Env, obs: seq<nat>, vars: seq<int>, mtry: nat, s: Stream): (r: Choice)
    requires Fits(e, obs) && VarsIn(vars, |e.cols|)
    ensures r.Split? ==> r.v in vars && Evaluate(e, obs, Entropy.CalcEntropy(e.t, e.target, obs), r.v) == Some(r.cand)
    ensures r.NoSplit? <==>
              forall v :: v in vars && v in Sampling.RandomSample(vars, mtry, s) ==>
                Evaluate(e, obs, Entropy.CalcEntropy(e.t, e.target, obs), v).None?
    ensures mtry >= |vars| ==> r == SelectAmong(e, obs, vars)
  {
    var sub := Sampling.RandomSample(vars, mtry, s);
    SubspaceIn(vars, sub, |e.cols|);
    SelectAmong(e, obs, sub)
  }

  /** The variables drawn from `vars` are column indexes too. */
  lemma SubspaceIn(vars: seq<int>, sub: seq<int>, n: nat)
    requires VarsIn(vars, n) && multiset(sub) <= multiset(vars)
    ensures VarsIn(sub, n) && forall i :: 0 <= i < |sub| ==> sub[i] in vars
  {
    forall i | 0 <= i < |sub|
      ensures sub[i] in vars
    {
      assert sub[i] in multiset(sub);
    }
  }

  /** Evaluation of `vars` followed by `findBest`, with the node's entropy as the reference information. */
  function SelectAmong(e: Env, obs: seq<nat>, vars: seq<int>): (r: Choice)
    requires Fits(e, obs) && VarsIn(vars, |e.cols|)
    ensures r.Split? ==> r.v in vars && Evaluate(e, obs, Entropy.CalcEntropy(e.t, e.target, obs), r.v) == Some(r.cand)
    ensures r.NoSplit? <==> forall v :: v in vars ==> Evaluate(e, obs, Entropy.CalcEntropy(e.t, e.target, obs), v).None?
  {
    var info := Entropy.CalcEntropy(e.t, e.target, obs);
    var cands := Candidates(e, obs, info, vars);
    if |cands| == 0 then
      NoneRecorded(e, obs, info, vars, cands);
      NoSplit
    else
      var r := FindBest(cands, |e.cols|);
      RecordedFrom(e, obs, info, vars, cands, r.v);
      r
  }

  lemma NoneRecorded(e: Env, obs: seq<nat>, info: real, vars: seq<int>, cands: Cands)
    requires Fits(e, obs) && VarsIn(vars, |e.cols|) && cands == Candidates(e, obs, info, vars)
    ensures |cands| == 0 <==> forall v :: v in vars ==> Evaluate(e, obs, info, v).None?
  {
    if |cands| != 0 {
      var k :| k in cands;
      var i :| 0 <= i < |vars| && vars[i] == k;
    } else {
      forall v | v in vars
        ensures Evaluate(e, obs, info, v).None?
      {
        var i :| 0 <= i < |vars| && vars[i] == v;
        assert v !in cands;
      }
    }
  }

  lemma RecordedFrom(e: Env, obs: seq<nat>, info: real, vars: seq<int>, cands: Cands, v: nat)
    requires Fits(e, obs) && VarsIn(vars, |e.cols|) && cands == Candidates(e, obs, info, vars)
    requires v in cands
    ensures v in vars && Evaluate(e, obs, info, v) == Some(cands[v])
  {
    var i :| 0 <= i < |vars| && vars[i] == v;
  }

  /** The qualifying keys below `k` in ascending order, with their gain ratios. */
  function Qualifying(cands: Cands, avg: real, k: nat): (r: seq<nat>)
    ensures forall p :: 0 <= p < |r| ==> r[p] < k && r[p] in cands && Qualifies(cands[r[p]], avg)
    ensures forall v: nat :: v < k && v in cands && Qualifies(cands[v], avg) ==> v in r
    ensures forall p, q :: 0 <= p < q < |r| ==> r[p] < r[q]
  {
    if k == 0 then []
    else
      var r := Qualifying(cands, avg, k - 1);
      if k - 1 in cands && Qualifies(cands[k - 1], avg) then r + [k - 1] else r
  }

  function Ratios(cands: Cands, vs: seq<nat>): (r: seq<real>)
    requires forall p :: 0 <= p < |vs| ==> vs[p] in cands && cands[vs[p]].splitInfo > 0.0
    ensures |r| == |vs| && forall p :: 0 <= p < |vs| ==> r[p] == Ratio(cands[vs[p]])
  {
    seq(|vs|, p requires 0 <= p < |vs| => Ratio(cands[vs[p]]))
  }

  /**
   * `doIGRSelection`: evaluate every variable, keep the qualifying ones in key
   * order and let the weighted subspace of `mtry` of them pick by gain ratio;
   * with none qualifying, fall back to the smallest recorded index.
   */
  function DoIgrSelection(e: Env, obs: seq<nat>, vars: seq<int>, mtry: nat, weigh: Igr.Weigh, s: Stream): (r: Choice)
    requires Fits(e, obs) && VarsIn(vars, |e.cols|) && mtry >= 1
    ensures r.Split? ==> r.v in vars && Evaluate(e, obs, Entropy.CalcEntropy(e.t, e.target, obs), r.v) == Some(r.cand)
    ensures r.NoSplit? <==> forall v :: v in vars ==> Evaluate(e, obs, Entropy.CalcEntropy(e.t, e.target, obs), v).None?
    ensures r.Split? ==> IgrPick(Candidates(e, obs, Entropy.CalcEntropy(e.t, e.target, obs), vars), |e.cols|, mtry, r)
  {
    var info := Entropy.CalcEntropy(e.t, e.target, obs);
    var cands := Candidates(e, obs, info, vars);
    NoneRecorded(e, obs, info, vars, cands);
    if |cands| == 0 then NoSplit
    else
      var r := IgrChoice(cands, |e.cols|, mtry, weigh, s);
      RecordedFrom(e, obs, info, vars, cands, r.v);
      r
  }

  /**
   * What the weighted pick promises: a recorded variable; when some variable
   * qualifies, a qualifying one with its gain ratio, and with `mtry` covering
   * all of them the largest gain ratio; otherwise the fallback.
   */
  predicate IgrPick(cands: Cands, n: nat, mtry: nat, r: Choice)
    requires |cands| > 0 && KeysUnder(cands, n)
  {
    var avg := AverageInfoGain(cands, n);
    && r.Split? && r.v in cands && r.cand == cands[r.v]
    && ((forall v :: v in cands ==> !Qualifies(cands[v], avg)) ==> r == Fallback(cands, n))
    && ((exists v :: v in cands && Qualifies(cands[v], avg)) ==>
          Qualifies(r.cand, avg) && r.gainRatio == Some(Ratio(r.cand)))
    && ((exists v :: v in cands && Qualifies(cands[v], avg)) && mtry >= |Qualifying(cands, avg, n)| ==>
          forall v :: v in cands && Qualifies(cands[v], avg) ==> Ratio(cands[v]) <= Ratio(r.cand))
  }

  /** The IGR branch of `doIGRSelection` on a non-empty candidate map. */
  function IgrChoice(cands: Cands, n: nat, mtry: nat, weigh: Igr.Weigh, s: Stream): (r: Choice)
    requires |cands| > 0 && KeysUnder(cands, n) && mtry >= 1
    ensures IgrPick(cands, n, mtry, r)
  {
    var avg := AverageInfoGain(cands, n);
    var vs := Qualifying(cands, avg, n);
    if |vs| == 0 then
      Fallback(cands, n)
    else
      var ratios := Ratios(cands, vs);
      var k := Igr.SelectedIdx(ratios, mtry, weigh, s);
      var v := vs[k];
      assert mtry >= |vs| ==> forall w :: w in cands && Qualifies(cands[w], avg) ==> Ratio(cands[w]) <= Ratio(cands[v]) by {
        if mtry >= |vs| {
          forall w | w in cands && Qualifies(cands[w], avg)
            ensures Ratio(cands[w]) <= Ratio(cands[v])
          {
            var p :| 0 <= p < |vs| && vs[p] == w;
            assert ratios[p] <= ratios[k];
          }
        }
      }
      Split(v, cands[v], Some(ratios[k]))
  }
}
