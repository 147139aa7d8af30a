/**
 * Growing a tree (src/tree.h, src/tree.cpp): `genC4p5Tree` with the leaf and
 * internal node constructors it calls, threading through the recursion the
 * selection seed, the node count and the per-variable sum of gain ratios.
 *
 * A node whose observations share a label becomes a pure leaf; with no
 * variables left, or when the selector records no candidate, it becomes a
 * majority leaf. Otherwise it splits: a discrete variable is removed for the
 * children and an empty level becomes a leaf carrying the parent's counts; a
 * continuous variable stays available. Every part of a split is smaller than
 * the node, which is the termination measure.
 */
module Grow {
  import opened Base
  import opened Data
  import opened Nodes
  import opened Bfs
  import Selector
  import Entropy
  import Splits
  import Igr

  /**
   * What one tree's build reads: the selector's environment, the subspace
   * size, whether the weighted (IGR) selection is used with its weighting,
   * and the random engine, seeded afresh at every selection.
   */
  datatype Config = Config(env: Selector.Env, mtry: nat, weights: bool, weigh: Igr.Weigh, engine: Engine)

  /** `seed_`, `nnodes_` and `tree_IGR_VIs_`. */
  datatype State = State(seed: nat, nnodes: nat, vis: seq<real>)

  /** The variable types as `save` and prediction see them. */
  function IsDisc(cols: seq<Column>): (r: seq<bool>)
    ensures |r| == |cols| && forall v :: 0 <= v < |cols| ==> (r[v] <==> cols[v].Disc?)
  {
    seq(|cols|, v requires 0 <= v < |cols| => cols[v].Disc?)
  }

  /** The draws of an engine seeded with `seed`. */
  function DrawsOf(engine: Engine, seed: nat): Stream
  {
    i => engine(seed, i)
  }

  /** The variables of a list, as a set. */
  function VarSet(vars: seq<int>): (r: set<int>)
    ensures forall x :: x in r <==> x in vars
  {
    set x | x in vars
  }

  // ---------------------------------------------------------------------------
  // removeOneVar

  /** The entries of `vars` other than `index`, in order. */
  function Without(vars: seq<int>, index: int): (r: seq<int>)
    ensures forall x :: x in r <==> x in vars && x != index
  {
    if |vars| == 0 then []
    else (if vars[0] == index then [] else [vars[0]]) + Without(vars[1..], index)
  }

  lemma {:induction false} WithoutAbsent(vars: seq<int>, index: int)
    requires index !in vars
    ensures Without(vars, index) == vars
  {
    if |vars| > 0 {
      WithoutAbsent(vars[1..], index);
      assert vars == [vars[0]] + vars[1..];
    }
  }

  lemma {:induction false} WithoutOnce(vars: seq<int>, index: int, i: nat)
    requires i < |vars| && vars[i] == index && multiset(vars)[index] == 1
    ensures Without(vars, index) == vars[..i] + vars[i + 1..]
  {
    assert vars == [vars[0]] + vars[1..];
    assert multiset(vars) == multiset{vars[0]} + multiset(vars[1..]);
    if i == 0 {
      assert multiset(vars[1..])[index] == 0;
      WithoutAbsent(vars[1..], index);
    } else {
      assert vars[1..][i - 1] == index;
      assert index in multiset(vars[1..]);
      assert vars[0] != index;
      WithoutOnce(vars[1..], index, i - 1);
      assert vars[1..][..i - 1] + vars[1..][i..] == vars[1..i] + vars[i + 1..];
      assert [vars[0]] + vars[1..i] == vars[..i];
    }
  }

  /**
   * `removeOneVar`: `vars` with its one occurrence of `index` taken out, the
   * others in their order. The source needs exactly one occurrence: with none
   * it writes past the result, with more it leaves zeros at the end.
   */
  function RemoveOneVar(vars: seq<int>, index: int): (r: seq<int>)
    requires multiset(vars)[index] == 1
    ensures |r| == |vars| - 1
    ensures forall i :: 0 <= i < |vars| && vars[i] == index ==> r == vars[..i] + vars[i + 1..]
    ensures forall x :: x in r <==> x in vars && x != index
  {
    assert index in multiset(vars);
    var i :| 0 <= i < |vars| && vars[i] == index;
    WithoutOnce(vars, index, i);
    forall j | 0 <= j < |vars| && vars[j] == index
      ensures Without(vars, index) == vars[..j] + vars[j + 1..]
    {
      WithoutOnce(vars, index, j);
    }
    Without(vars, index)
  }

  /** A variable of a list without repeats occurs in it once. */
  lemma {:induction false} DistinctOnce(vars: seq<int>, x: int)
    requires Distinct(vars) && x in vars
    ensures multiset(vars)[x] == 1
  {
    assert vars == [vars[0]] + vars[1..];
    assert multiset(vars) == multiset{vars[0]} + multiset(vars[1..]);
    if vars[0] == x {
      assert x !in vars[1..];
    } else {
      DistinctOnce(vars[1..], x);
    }
  }

  /** Removing the chosen variable keeps the list free of repeats and within the columns. */
  lemma RemoveKeeps(vars: seq<int>, v: nat, n: nat)
    requires Distinct(vars) && Selector.VarsIn(vars, n) && v in vars
    ensures multiset(vars)[v] == 1
    ensures Distinct(RemoveOneVar(vars, v)) && Selector.VarsIn(RemoveOneVar(vars, v), n)
    ensures VarSet(RemoveOneVar(vars, v)) == VarSet(vars) - {v}
  {
    DistinctOnce(vars, v);
    var i :| 0 <= i < |vars| && vars[i] == v;
    var r := RemoveOneVar(vars, v);
    assert r == vars[..i] + vars[i + 1..];
    forall a, b | 0 <= a < b < |r|
      ensures r[a] != r[b]
    {
      var a' := if a < i then a else a + 1;
      var b' := if b < i then b else b + 1;
      assert r[a] == vars[a'] && r[b] == vars[b'];
    }
    forall a | 0 <= a < |r|
      ensures 0 <= r[a] < n
    {
      assert r[a] in vars;
    }
  }

  /** The variables the children of a split on `v` may use: all but `v` after a discrete split. */
  function KidVars(vars: seq<int>, v: nat, disc: bool, n: nat): (r: seq<int>)
    requires Distinct(vars) && Selector.VarsIn(vars, n) && v in vars
    ensures Distinct(r) && Selector.VarsIn(r, n)
    ensures VarSet(r) == (if disc then VarSet(vars) - {v} else VarSet(vars))
  {
    if disc then
      RemoveKeeps(vars, v, n);
      RemoveOneVar(vars, v)
    else vars
  }

  // ---------------------------------------------------------------------------
  // Node creation

  /**
   * `createLeafNode`: a pure leaf takes the first observation's label and
   * credits every observation to it; an impure one keeps the full label
   * counts and the first most frequent label. `nobs` is the size recorded.
   */
  function CreateLeafNode(t: Target, obs: seq<nat>, nobs: int, pure: bool): (r: Rec)
    requires Labelled(t, obs) && |obs| > 0
    ensures r.LeafRec? && r.nobs == nobs && |r.freq| == t.nlabels && 0 <= r.labelIdx < t.nlabels
    ensures pure ==> r.labelIdx == t.labels[obs[0]] - 1
    ensures pure ==> forall l :: 0 <= l < t.nlabels ==> r.freq[l] == (if l == r.labelIdx then |obs| else 0)
    ensures !pure ==> forall l :: 0 <= l < t.nlabels ==> r.freq[l] == multiset(LabelsOf(t, obs))[l + 1]
    ensures !pure ==> forall l :: 0 <= l < t.nlabels ==>
              r.freq[l] <= r.freq[r.labelIdx] && (l < r.labelIdx ==> r.freq[l] < r.freq[r.labelIdx])
  {
    if pure then
      var lab := t.labels[obs[0]] - 1;
      LeafRec(nobs, lab, Zeros(t.nlabels)[lab := |obs|])
    else
      FreqCounts(t, obs);
      var f := LabelFreqCount(t, obs);
      LeafRec(nobs, MajorityLabel(f), f)
  }

  /**
   * When every observation has the same label the pure leaf is the majority
   * leaf: the shortcut of `genC4p5Tree` does not change the tree.
   */
  lemma PureLeafIsMajority(t: Target, obs: seq<nat>, nobs: int)
    requires Labelled(t, obs) && |obs| > 0
    requires HaveSameLabel(t, obs) == Ok(true)
    ensures CreateLeafNode(t, obs, nobs, true) == CreateLeafNode(t, obs, nobs, false)
  {
    var lab := t.labels[obs[0]] - 1;
    var f := LabelFreqCount(t, obs);
    PureIfSame(t, obs);
    Entropy.OnlyCount(f, lab);
    assert f == Zeros(t.nlabels)[lab := |obs|];
    var m := MajorityLabel(f);
    assert f[lab] <= f[m];
  }

  /** `++nnodes_` and, for an internal node with a gain ratio, `tree_IGR_VIs_[v] += ratio`. */
  function Credit(st: State, v: nat, gainRatio: Option<real>): (r: State)
    requires v < |st.vis|
    ensures r.seed == st.seed && r.nnodes == st.nnodes + 1 && |r.vis| == |st.vis|
    ensures forall w :: 0 <= w < |st.vis| ==>
              r.vis[w] == st.vis[w] + (if w == v && gainRatio.Some? then gainRatio.value else 0.0)
  {
    var vis := if gainRatio.Some? then st.vis[v := st.vis[v] + gainRatio.value] else st.vis;
    State(st.seed, st.nnodes + 1, vis)
  }

  /**
   * `createInternalNode`: one child slot per part of the chosen split, the
   * variable with its gain, split information and gain ratio, and the split
   * value only for a continuous variable.
   */
  function CreateInternalNode(nobs: int, v: nat, cand: Splits.Cand, gainRatio: Option<real>): (r: Rec)
    ensures r.InternalRec? && NChild(r) == |cand.parts| && r.varIdx == v && r.nobs == nobs
    ensures r.gainRatio == gainRatio && r.splitValue == cand.splitValue
  {
    InternalRec(nobs, |cand.parts|, v, Some(cand.infoGain), Some(cand.splitInfo), gainRatio, cand.splitValue)
  }

  // ---------------------------------------------------------------------------
  // What the grown tree satisfies

  /** The gain ratios recorded at the internal nodes of `t` splitting on `w`. */
  function RatioSum(t: Tree, w: nat): real
    decreases t
  {
    (if t.head.InternalRec? && t.head.varIdx == w && t.head.gainRatio.Some? then t.head.gainRatio.value else 0.0)
      + RatioSumOf(t.kids, w)
  }

  function RatioSumOf(ts: seq<Tree>, w: nat): real
    decreases ts
  {
    if |ts| == 0 then 0.0 else RatioSum(ts[0], w) + RatioSumOf(ts[1..], w)
  }

  /** The variables the children of a node may split on. */
  function Below(h: Rec, allowed: set<int>, isDisc: seq<bool>): set<int>
  {
    if h.InternalRec? && h.varIdx < |isDisc| && isDisc[h.varIdx] then allowed - {h.varIdx as int} else allowed
  }

  /**
   * Every internal node splits on an allowed variable, and below a discrete
   * split that variable is no longer allowed.
   */
  predicate Within(t: Tree, allowed: set<int>, isDisc: seq<bool>)
    decreases t
  {
    && (t.head.InternalRec? ==> t.head.varIdx as int in allowed)
    && forall i :: 0 <= i < |t.kids| ==> Within(t.kids[i], Below(t.head, allowed, isDisc), isDisc)
  }

  /** The discrete variables split on above a node, `used`, grown by the node's own. */
  function Above(h: Rec, used: set<int>, isDisc: seq<bool>): set<int>
  {
    if h.InternalRec? && h.varIdx < |isDisc| && isDisc[h.varIdx] then used + {h.varIdx as int} else used
  }

  /** No path from the root splits twice on the same discrete variable. */
  predicate NoRepeat(t: Tree, used: set<int>, isDisc: seq<bool>)
    decreases t
  {
    && (t.head.InternalRec? && t.head.varIdx < |isDisc| && isDisc[t.head.varIdx] ==> t.head.varIdx as int !in used)
    && forall i :: 0 <= i < |t.kids| ==> NoRepeat(t.kids[i], Above(t.head, used, isDisc), isDisc)
  }

  /** A tree that keeps to its allowed variables never reuses a discrete variable on a path. */
  lemma {:induction false} WithinNoRepeat(t: Tree, allowed: set<int>, used: set<int>, isDisc: seq<bool>)
    requires Within(t, allowed, isDisc) && allowed !! used
    ensures NoRepeat(t, used, isDisc)
    decreases t
  {
    var allowed', used' := Below(t.head, allowed, isDisc), Above(t.head, used, isDisc);
    assert allowed' !! used';
    forall i | 0 <= i < |t.kids|
      ensures NoRepeat(t.kids[i], used', isDisc)
    {
      WithinNoRepeat(t.kids[i], allowed', used', isDisc);
    }
  }

  // ---------------------------------------------------------------------------
  // genC4p5Tree

  /** What a node of the build needs: its observations fit, the variables are distinct columns. */
  predicate Ready(c: Config, obs: seq<nat>, vars: seq<int>, st: State)
  {
    && Selector.Fits(c.env, obs)
    && Selector.VarsIn(vars, |c.env.cols|) && Distinct(vars)
    && |st.vis| == |c.env.cols|
    && (c.weights ==> c.mtry >= 1)
  }

  /** `doSelection`, or `doIGRSelection` when weights are on, with the engine seeded by `seed_`. */
  function Select(c: Config, obs: seq<nat>, vars: seq<int>, seed: nat): (r: Selector.Choice)
    requires Selector.Fits(c.env, obs) && Selector.VarsIn(vars, |c.env.cols|) && (c.weights ==> c.mtry >= 1)
    ensures r.Split? ==> r.v in vars && r.v < |c.env.cols|
    ensures r.Split? ==> Selector.Evaluate(c.env, obs, Entropy.CalcEntropy(c.env.t, c.env.target, obs), r.v) == Some(r.cand)
    ensures r.Split? ==> Splittable(c.env, obs, r.v, r.cand)
  {
    var r :=
      if c.weights then Selector.DoIgrSelection(c.env, obs, vars, c.mtry, c.weigh, DrawsOf(c.engine, seed))
      else Selector.DoSelection(c.env, obs, vars, c.mtry, DrawsOf(c.engine, seed));
    if r.Split? then
      var cand := Selector.Evaluate(c.env, obs, Entropy.CalcEntropy(c.env.t, c.env.target, obs), r.v);
      assert cand == Some(r.cand);
      EvaluatedSplittable(c.env, obs, r.v, r.cand);
      r
    else r
  }

  lemma EvaluatedSplittable(e: Selector.Env, obs: seq<nat>, v: nat, cand: Splits.Cand)
    requires v < |e.cols| && multiset(Concat(cand.parts)) == multiset(obs) && Selector.Shrinks(cand.parts, |obs|)
    requires e.cols[v].Disc? <==> cand.splitValue.None?
    requires e.cols[v].Cont? ==> |cand.parts| == 2 && |cand.parts[0]| > 0 && |cand.parts[1]| > 0
    ensures Splittable(e, obs, v, cand)
  {
    if e.cols[v].Cont? {
      forall j | 0 <= j < |cand.parts|
        ensures |cand.parts[j]| > 0
      {
        if j == 1 {
        }
      }
    }
  }

  /**
   * What a recorded candidate guarantees the build: its parts partition the
   * node into smaller sets, non-empty for a continuous variable, and only a
   * continuous variable has a split value.
   */
  predicate Splittable(e: Selector.Env, obs: seq<nat>, v: nat, cand: Splits.Cand)
  {
    && v < |e.cols|
    && multiset(Concat(cand.parts)) == multiset(obs) && Selector.Shrinks(cand.parts, |obs|)
    && (e.cols[v].Disc? <==> cand.splitValue.None?)
    && (e.cols[v].Cont? ==> forall j :: 0 <= j < |cand.parts| ==> |cand.parts[j]| > 0)
  }

  /** A subset of a node's observations, non-empty, fits the selector too. */
  lemma FitsPart(e: Selector.Env, obs: seq<nat>, part: seq<nat>)
    requires Selector.Fits(e, obs) && (forall x :: x in part ==> x in obs) && 0 < |part| < |e.t|
    ensures Selector.Fits(e, part)
  {
    forall i | 0 <= i < |part|
      ensures exists k :: 0 <= k < |obs| && obs[k] == part[i]
    {
      assert part[i] in obs;
    }
    forall i | 0 <= i < |part|
      ensures part[i] < |e.target.labels| && 1 <= e.target.labels[part[i]] <= e.target.nlabels
    {
      var k :| 0 <= k < |obs| && obs[k] == part[i];
    }
    forall v | 0 <= v < |e.cols|
      ensures Selector.ColumnFits(e.cols[v], e.nvals[v], part)
    {
      assert Selector.ColumnFits(e.cols[v], e.nvals[v], obs);
      match e.cols[v]
      case Disc(codes) =>
        forall i | 0 <= i < |part|
          ensures part[i] < |codes| && 1 <= codes[part[i]] <= e.nvals[v]
        {
          var k :| 0 <= k < |obs| && obs[k] == part[i];
        }
      case Cont(values) =>
        forall i | 0 <= i < |part|
          ensures part[i] < |values|
        {
          var k :| 0 <= k < |obs| && obs[k] == part[i];
        }
    }
  }

  /** The build's promises about the subtree it returns and the counters it leaves. */
  predicate Grown(c: Config, vars: seq<int>, st: State, t: Tree, st': State)
  {
    && Good(t, IsDisc(c.env.cols))
    && Within(t, VarSet(vars), IsDisc(c.env.cols))
    && st'.nnodes == st.nnodes + Size(t)
    && |st'.vis| == |st.vis|
    && forall w :: 0 <= w < |st.vis| ==> st'.vis[w] == st.vis[w] + RatioSum(t, w)
  }

  predicate GrownAll(c: Config, vars: seq<int>, st: State, ts: seq<Tree>, st': State)
  {
    && (forall i :: 0 <= i < |ts| ==> Good(ts[i], IsDisc(c.env.cols)) && Within(ts[i], VarSet(vars), IsDisc(c.env.cols)))
    && st'.nnodes == st.nnodes + SizeOf(ts)
    && |st'.vis| == |st.vis|
    && forall w :: 0 <= w < |st.vis| ==> st'.vis[w] == st.vis[w] + RatioSumOf(ts, w)
  }

  /**
   * `genC4p5Tree`: the subtree grown from `obs` with the variables `vars`
   * still available, and the counters after it.
   */
  function GrowNode(c: Config, obs: seq<nat>, vars: seq<int>, st: State): (r: (Tree, State))
    requires Ready(c, obs, vars, st)
    ensures Grown(c, vars, st, r.0, r.1)
    ensures r.0.head.nobs == |obs|
    ensures HaveSameLabel(c.env.target, obs) == Ok(true) ==>
              r.0 == Tree(CreateLeafNode(c.env.target, obs, |obs|, true), []) && r.1.seed == st.seed
    ensures HaveSameLabel(c.env.target, obs) != Ok(true) && |vars| == 0 ==>
              r.0 == Tree(CreateLeafNode(c.env.target, obs, |obs|, false), []) && r.1.seed == st.seed
    ensures HaveSameLabel(c.env.target, obs) != Ok(true) && |vars| > 0 ==>
              match Select(c, obs, vars, st.seed)
              case NoSplit =>
                r.0 == Tree(CreateLeafNode(c.env.target, obs, |obs|, false), []) && r.1.seed == NextSeed(st.seed)
              case Split(v, cand, gainRatio) => r.0.head == CreateInternalNode(|obs|, v, cand, gainRatio)
    ensures r.0.head.InternalRec? ==> r.0.head.varIdx as int in vars
    decreases |obs|, 3, 0
  {
    var e := c.env;
    if HaveSameLabel(e.target, obs) == Ok(true) then
      Leaf(c, obs, |obs|, true, vars, st)
    else if |vars| == 0 then
      Leaf(c, obs, |obs|, false, vars, st)
    else
      var choice := Select(c, obs, vars, st.seed);
      var st1 := st.(seed := NextSeed(st.seed));
      match choice
      case NoSplit => Leaf(c, obs, |obs|, false, vars, st1)
      case Split(v, cand, gainRatio) => SplitNode(c, obs, vars, st1, v, cand, gainRatio)
  }

  /**
   * A node split on `v`: an internal node whose children grow from the parts
   * of the candidate, without `v` when it is discrete.
   */
  function SplitNode(c: Config, obs: seq<nat>, vars: seq<int>, st: State, v: nat, cand: Splits.Cand, gainRatio: Option<real>): (r: (Tree, State))
    requires Ready(c, obs, vars, st) && v in vars && Splittable(c.env, obs, v, cand)
    ensures Grown(c, vars, st, r.0, r.1)
    ensures r.0.head == CreateInternalNode(|obs|, v, cand, gainRatio)
    decreases |obs|, 2, 0
  {
    var e := c.env;
    var node := CreateInternalNode(|obs|, v, cand, gainRatio);
    var st2 := Credit(st, v, gainRatio);
    var disc := e.cols[v].Disc?;
    var kidVars := KidVars(vars, v, disc, |e.cols|);
    assert VarSet(kidVars) == Below(node, VarSet(vars), IsDisc(e.cols));
    var kids := GrowKids(c, obs, cand.parts, disc, kidVars, 0, st2);
    InternalGrown(c, vars, st, node, kidVars, st2, kids.0, kids.1);
    (Tree(node, kids.0), kids.1)
  }

  /** A leaf and the count of one more node. */
  function Leaf(c: Config, obs: seq<nat>, nobs: int, pure: bool, vars: seq<int>, st: State): (r: (Tree, State))
    requires Labelled(c.env.target, obs) && |obs| > 0
    ensures Grown(c, vars, st, r.0, r.1) && r.1.seed == st.seed
    ensures r.0 == Tree(CreateLeafNode(c.env.target, obs, nobs, pure), [])
  {
    var t := Tree(CreateLeafNode(c.env.target, obs, nobs, pure), []);
    assert SizeOf([]) == 0;
    forall w | 0 <= w < |st.vis|
      ensures RatioSum(t, w) == 0.0
    {
    }
    (t, st.(nnodes := st.nnodes + 1))
  }

  /** An internal node over grown children keeps the build's promises. */
  lemma InternalGrown(c: Config, vars: seq<int>, st: State, node: Rec, kidVars: seq<int>, st2: State, kids: seq<Tree>, st': State)
    requires node.InternalRec? && node.varIdx < |c.env.cols| && node.varIdx as int in vars
    requires c.env.cols[node.varIdx].Disc? ==> node.splitValue.None?
    requires NChild(node) == |kids|
    requires VarSet(kidVars) == Below(node, VarSet(vars), IsDisc(c.env.cols))
    requires st2.nnodes == st.nnodes + 1 && |st2.vis| == |st.vis|
    requires forall w :: 0 <= w < |st.vis| ==>
               st2.vis[w] == st.vis[w] + (if w == node.varIdx && node.gainRatio.Some? then node.gainRatio.value else 0.0)
    requires GrownAll(c, kidVars, st2, kids, st')
    ensures Grown(c, vars, st, Tree(node, kids), st')
  {
    var t := Tree(node, kids);
    assert Size(t) == 1 + SizeOf(kids);
    forall w | 0 <= w < |st.vis|
      ensures st'.vis[w] == st.vis[w] + RatioSum(t, w)
    {
      assert RatioSum(t, w) == (if w == node.varIdx && node.gainRatio.Some? then node.gainRatio.value else 0.0) + RatioSumOf(kids, w);
    }
  }

  /** A grown first child followed by grown siblings. */
  lemma KidsGrown(c: Config, vars: seq<int>, st: State, t: Tree, st1: State, ts: seq<Tree>, st2: State)
    requires Grown(c, vars, st, t, st1) && GrownAll(c, vars, st1, ts, st2)
    ensures GrownAll(c, vars, st, [t] + ts, st2)
  {
    var l := [t] + ts;
    assert l[0] == t && l[1..] == ts;
    assert SizeOf(l) == Size(t) + SizeOf(ts);
    forall w | 0 <= w < |st.vis|
      ensures st2.vis[w] == st.vis[w] + RatioSumOf(l, w)
    {
      assert RatioSumOf(l, w) == RatioSum(t, w) + RatioSumOf(ts, w);
    }
  }

  /**
   * The loop over the split map: each part in key order becomes a child,
   * an empty level of a discrete split a leaf with the parent's counts.
   */
  function GrowKids(c: Config, obs: seq<nat>, parts: seq<seq<nat>>, disc: bool, vars: seq<int>, k: nat, st: State): (r: (seq<Tree>, State))
    requires Ready(c, obs, vars, st)
    requires k <= |parts| && multiset(Concat(parts)) == multiset(obs) && Selector.Shrinks(parts, |obs|)
    requires !disc ==> forall j :: 0 <= j < |parts| ==> |parts[j]| > 0
    ensures |r.0| == |parts| - k
    ensures forall j :: 0 <= j < |r.0| ==> r.0[j].head.nobs == |parts[k + j]|
    ensures forall j :: 0 <= j < |r.0| && disc && |parts[k + j]| == 0 ==>
              r.0[j] == Tree(CreateLeafNode(c.env.target, obs, 0, false), [])
    ensures GrownAll(c, vars, st, r.0, r.1)
    decreases |obs|, 1, |parts| - k
  {
    if k == |parts| then
      assert SizeOf([]) == 0;
      ([], st)
    else
      var first := GrowChild(c, obs, parts, disc, vars, k, st);
      var rest := GrowKids(c, obs, parts, disc, vars, k + 1, first.1);
      KidsGrown(c, vars, st, first.0, first.1, rest.0, rest.1);
      KidsAlign(parts, disc, k, Tree(CreateLeafNode(c.env.target, obs, 0, false), []), first.0, rest.0);
      ([first.0] + rest.0, rest.1)
  }

  /** A child for part `k` before the children for parts `k + 1 ..` is a child list for parts `k ..`. */
  lemma KidsAlign(parts: seq<seq<nat>>, disc: bool, k: nat, leaf: Tree, first: Tree, rest: seq<Tree>)
    requires k < |parts| && |rest| == |parts| - (k + 1)
    requires first.head.nobs == |parts[k]| && (disc && |parts[k]| == 0 ==> first == leaf)
    requires forall j :: 0 <= j < |rest| ==> rest[j].head.nobs == |parts[k + 1 + j]|
    requires forall j :: 0 <= j < |rest| && disc && |parts[k + 1 + j]| == 0 ==> rest[j] == leaf
    ensures forall j :: 0 <= j < |rest| + 1 ==> ([first] + rest)[j].head.nobs == |parts[k + j]|
    ensures forall j :: 0 <= j < |rest| + 1 && disc && |parts[k + j]| == 0 ==> ([first] + rest)[j] == leaf
  {
    forall j | 0 <= j < |rest| + 1
      ensures ([first] + rest)[j].head.nobs == |parts[k + j]|
      ensures disc && |parts[k + j]| == 0 ==> ([first] + rest)[j] == leaf
    {
      if j > 0 {
        assert ([first] + rest)[j] == rest[j - 1] && k + 1 + (j - 1) == k + j;
      }
    }
  }

  /** The child grown from part `k`. */
  function GrowChild(c: Config, obs: seq<nat>, parts: seq<seq<nat>>, disc: bool, vars: seq<int>, k: nat, st: State): (r: (Tree, State))
    requires Ready(c, obs, vars, st)
    requires k < |parts| && multiset(Concat(parts)) == multiset(obs) && Selector.Shrinks(parts, |obs|)
    requires !disc ==> |parts[k]| > 0
    ensures Grown(c, vars, st, r.0, r.1)
    ensures r.0.head.nobs == |parts[k]|
    ensures disc && |parts[k]| == 0 ==>
              r.0 == Tree(CreateLeafNode(c.env.target, obs, 0, false), []) && r.1.seed == st.seed
    decreases |obs|, 0, 0
  {
    if disc && |parts[k]| == 0 then Leaf(c, obs, 0, false, vars, st)
    else
      ConcatMember(parts, k);
      assert forall x :: x in parts[k] ==> x in multiset(Concat(parts));
      FitsPart(c.env, obs, parts[k]);
      GrowNode(c, parts[k], vars, st)
  }

  // ---------------------------------------------------------------------------
  // Building one tree

  /**
   * `genBaggingSets`: `nobs` draws with replacement from `[0, nobs)`, and
   * the never-drawn indices in ascending order as the out-of-bag set.
   */
  function GenBaggingSets(nobs: nat, s: Stream): (r: (seq<nat>, seq<nat>))
    requires nobs > 0
    ensures |r.0| == nobs && forall j :: 0 <= j < nobs ==> r.0[j] == Uniform(s, j, nobs) && r.0[j] < nobs
    ensures forall x: nat :: x in r.1 <==> x < nobs && x !in r.0
    ensures forall p, q :: 0 <= p < q < |r.1| ==> r.1[p] < r.1[q]
  {
    var bag := seq(nobs, j requires 0 <= j < nobs => Uniform(s, j, nobs));
    var oob := OobFrom(bag, nobs, 0);
    assert forall x: nat :: x in oob <==> x < nobs && x !in bag;
    (bag, oob)
  }

  /** The scan of `selected_status` from `ind` on. */
  function OobFrom(bag: seq<nat>, nobs: nat, ind: nat): (r: seq<nat>)
    ensures forall x: nat :: x in r <==> ind <= x < nobs && x !in bag
    ensures forall p, q :: 0 <= p < q < |r| ==> r[p] < r[q]
    decreases nobs - ind
  {
    if ind >= nobs then []
    else
      var rest := OobFrom(bag, nobs, ind + 1);
      assert forall p :: 0 <= p < |rest| ==> ind < rest[p] by {
        forall p | 0 <= p < |rest| ensures ind < rest[p] { assert rest[p] in rest; }
      }
      (if ind in bag then [] else [ind]) + rest
  }

  /** The variables `getFeatureVars` lists: every column, in order. */
  function FeatureVars(n: nat): (r: seq<int>)
    ensures |r| == n && forall i :: 0 <= i < n ==> r[i] == i
  {
    seq(n, i => i)
  }

  /** Every row of the training set is labelled and covered by every column. */
  predicate Trainable(c: Config, nobs: nat)
  {
    && nobs > 0
    && Selector.Fits(c.env, seq(nobs, i => i))
    && (c.weights ==> c.mtry >= 1)
  }

  /**
   * `Tree::build` for the tree seeded with `seed`: the bagging sets from the
   * engine seeded with `seed`, then growth from the bag with every variable,
   * `seed_` starting at `seed`, no nodes and zero gain ratio sums.
   */
  function BuildTree(c: Config, nobs: nat, seed: nat): (r: (Tree, State, seq<nat>))
    requires Trainable(c, nobs)
    ensures Good(r.0, IsDisc(c.env.cols))
    ensures r.1.nnodes == Size(r.0)
    ensures |r.1.vis| == |c.env.cols| && forall w :: 0 <= w < |c.env.cols| ==> r.1.vis[w] == RatioSum(r.0, w)
    ensures NoRepeat(r.0, {}, IsDisc(c.env.cols))
    ensures forall x: nat :: x in r.2 <==> x < nobs && x !in GenBaggingSets(nobs, DrawsOf(c.engine, seed)).0
  {
    var sets := GenBaggingSets(nobs, DrawsOf(c.engine, seed));
    BagFits(c, nobs, sets.0);
    var n := |c.env.cols|;
    var vars := FeatureVars(n);
    var st0 := State(seed, 0, seq(n, _ => 0.0));
    var grown := GrowNode(c, sets.0, vars, st0);
    WithinNoRepeat(grown.0, VarSet(vars), {}, IsDisc(c.env.cols));
    (grown.0, grown.1, sets.1)
  }

  /** A bag of `nobs` row indexes of a trainable set is ready for growth with every variable. */
  lemma BagFits(c: Config, nobs: nat, bag: seq<nat>)
    requires Trainable(c, nobs) && |bag| == nobs && forall j :: 0 <= j < nobs ==> bag[j] < nobs
    ensures Ready(c, bag, FeatureVars(|c.env.cols|), State(0, 0, seq(|c.env.cols|, _ => 0.0)))
  {
    var all := seq(nobs, i => i);
    forall x | x in bag
      ensures x in all
    {
      assert all[x] == x;
    }
    FitsPart(c.env, all, bag);
  }
}
