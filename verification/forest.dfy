/**
 * Training a forest (src/rforest.cpp): the default subspace size, the
 * number of builder threads, and the sequential build, in which tree `i`
 * grows from seed `i` and then measures itself on its out-of-bag set.
 */
module Forest {
  import opened Base
  import opened Data
  import opened Nodes
  import opened Bfs
  import opened Grow
  import opened Predict
  import opened Oob

  /** `floor(log2 n)`. */
  function Log2Floor(n: nat): (k: nat)
    requires n >= 1
    ensures Pow2(k) <= n < Pow2(k + 1)
  {
    if n == 1 then 0 else Log2Floor(n / 2) + 1
  }

  /** The exponent that brackets `n` between two powers of two is unique. */
  lemma {:induction false} Log2Unique(n: nat, k: nat)
    requires n >= 1 && Pow2(k) <= n < Pow2(k + 1)
    ensures k == Log2Floor(n)
  {
    if k == 0 {
      assert n == 1;
    } else {
      assert Pow2(k) == 2 * Pow2(k - 1) && Pow2(k + 1) == 2 * Pow2(k);
      assert Pow2(k - 1) <= n / 2 < Pow2(k);
      Log2Unique(n / 2, k - 1);
    }
  }

  /**
   * The subspace size: `-1` asks for `log2(nvars) + 1` truncated, i.e. one
   * more than the largest power of two not above `nvars`; any other value is
   * kept.
   */
  function DefaultMtry(mtry: int, nvars: nat): (r: int)
    requires mtry == -1 ==> nvars >= 1
    ensures mtry != -1 ==> r == mtry
    ensures mtry == -1 ==> r >= 1 && Pow2(r - 1) <= nvars < Pow2(r)
  {
    if mtry == -1 then Log2Floor(nvars) + 1 else mtry
  }

  /** `hardware_concurrency() - 2`: an unsigned subtraction, read back as an `int`. */
  function CoresMinusTwo(cores: nat): (r: int)
    requires cores < WORD
    ensures 2 <= cores < 0x8000_0002 ==> r == cores - 2
    ensures cores < 2 ==> r < 0
  {
    var wrapped := (cores - 2) % WORD;
    if wrapped >= 0x8000_0000 then wrapped - WORD else wrapped
  }

  /**
   * The number of builder threads: `parallel` when it is not negative;
   * otherwise the cores less two when that exceeds one, and 10 else.
   */
  function ThreadCount(parallel: int, cores: nat): (r: int)
    requires cores < WORD
    ensures parallel >= 0 ==> r == parallel
    ensures parallel < 0 && 4 <= cores < 0x8000_0002 ==> r == cores - 2
    ensures parallel < 0 && cores < 4 ==> r == 10
    ensures parallel < 0 ==> r >= 2
  {
    var n := CoresMinusTwo(cores);
    if parallel < 0 then (if n > 1 then n else 10) else parallel
  }

  /** One slot of the forest: the tree, its growth state, its out-of-bag set and measures. */
  datatype Built = Built(tree: Tree, state: State, oob: seq<nat>, measures: Result<Measures>)

  /** Every out-of-bag index of a trainable set is a labelled training row. */
  lemma RowsLabelled(c: Config, nobs: nat, obs: seq<nat>)
    requires Trainable(c, nobs) && forall j :: 0 <= j < |obs| ==> obs[j] < nobs
    ensures Labelled(c.env.target, obs)
  {
    var all := seq(nobs, i => i);
    forall j | 0 <= j < |obs|
      ensures obs[j] < |c.env.target.labels| && 1 <= c.env.target.labels[obs[j]] <= c.env.target.nlabels
    {
      assert all[obs[j]] == obs[j];
    }
  }

  /** `f` applied to each seed, in seed order. */
  function MapSeeds<T>(f: nat -> T, seeds: seq<nat>): (r: seq<T>)
    ensures |r| == |seeds|
    decreases |seeds|
  {
    if |seeds| == 0 then [] else MapSeeds(f, seeds[..|seeds| - 1]) + [f(seeds[|seeds| - 1])]
  }

  /** Entry `i` of `MapSeeds` is `f` of seed `i`. */
  lemma {:induction false} MapSeedsAt<T>(f: nat -> T, seeds: seq<nat>, i: nat)
    requires i < |seeds|
    ensures MapSeeds(f, seeds)[i] == f(seeds[i])
    decreases |seeds|
  {
    var n := |seeds| - 1;
    if i < n {
      MapSeedsAt(f, seeds[..n], i);
      assert seeds[..n][i] == seeds[i];
    }
  }

  /** Growing a tree from a seed. */
  function Grower(c: Config, nobs: nat): nat -> (Tree, State, seq<nat>)
    requires Trainable(c, nobs)
  {
    seed => BuildTree(c, nobs, seed)
  }

  /** The trees the seeds grow, in seed order. */
  function GrowAll(c: Config, nobs: nat, seeds: seq<nat>): (r: seq<(Tree, State, seq<nat>)>)
    requires Trainable(c, nobs)
    ensures |r| == |seeds|
  {
    MapSeeds(Grower(c, nobs), seeds)
  }

  /** Entry `i` of `GrowAll` is the tree grown from seed `i`. */
  lemma GrowAllAt(c: Config, nobs: nat, seeds: seq<nat>, i: nat)
    requires Trainable(c, nobs) && i < |seeds|
    ensures GrowAll(c, nobs, seeds)[i] == BuildTree(c, nobs, seeds[i])
  {
    MapSeedsAt(Grower(c, nobs), seeds, i);
  }

  /**
   * Slot `b` holds the grown tree `g` with its state and out-of-bag set, and
   * measures taken on that set with the permutations drawn from the seed the
   * growth ended with: an error exactly when a prediction fails, and
   * otherwise the out-of-bag predictions and error rates of that tree.
   */
  ghost predicate Slot(c: Config, importance: bool, g: (Tree, State, seq<nat>), b: Built)
  {
    var isDisc := IsDisc(c.env.cols);
    var s := DrawsOf(c.engine, g.1.seed);
    && b.tree == g.0 && b.state == g.1 && b.oob == g.2
    && Labelled(c.env.target, b.oob)
    && (b.measures.Err? <==>
          OobPredict(b.tree, isDisc, c.env.cols, NoPerm, b.oob).Err? ||
          (importance && PermFails(b.tree, isDisc, c.env.cols, b.oob, s)))
    && (b.measures.Ok? ==>
          Baseline(b.measures.value, OobPredict(b.tree, isDisc, c.env.cols, NoPerm, b.oob).value,
                   Actual(c.env.target, b.oob), c.env.target.nlabels))
  }

  /** `buildOneTree`: grow the tree seeded with `seed`, then measure it on its out-of-bag set. */
  method BuildOneTree(c: Config, nobs: nat, seed: nat, importance: bool) returns (b: Built)
    requires Trainable(c, nobs)
    ensures Slot(c, importance, BuildTree(c, nobs, seed), b)
  {
    var g := BuildTree(c, nobs, seed);
    forall j | 0 <= j < |g.2|
      ensures g.2[j] < nobs
    {
      assert g.2[j] in g.2;
    }
    RowsLabelled(c, nobs, g.2);
    var m := CalcOobMeasures(g.0, IsDisc(c.env.cols), c.env.cols, c.env.target, g.2, importance, DrawsOf(c.engine, g.1.seed));
    b := Built(g.0, g.1, g.2, m);
  }

  /** The slots `r` hold the first `|r|` grown trees, in order. */
  ghost predicate SlotsFor(c: Config, importance: bool, grown: seq<(Tree, State, seq<nat>)>, r: seq<Built>)
    requires |r| <= |grown|
    decreases |r|
  {
    |r| == 0 ||
    (SlotsFor(c, importance, grown, r[..|r| - 1]) && Slot(c, importance, grown[|r| - 1], r[|r| - 1]))
  }

  lemma {:induction false} SlotAt(c: Config, importance: bool, grown: seq<(Tree, State, seq<nat>)>, r: seq<Built>, j: nat)
    requires |r| <= |grown| && SlotsFor(c, importance, grown, r) && j < |r|
    ensures Slot(c, importance, grown[j], r[j])
    decreases |r|
  {
    var n := |r| - 1;
    if j < n {
      SlotAt(c, importance, grown, r[..n], j);
      assert r[..n][j] == r[j];
    }
  }

  /**
   * `buidForestSeq`: tree `i` from `tree_seeds_[i]` into slot `i`, in index
   * order.
   */
  method BuildForestSeq(c: Config, nobs: nat, seeds: seq<nat>, importance: bool) returns (r: seq<Built>)
    requires Trainable(c, nobs)
    ensures |r| == |seeds|
    ensures forall i :: 0 <= i < |seeds| ==> Slot(c, importance, GrowAll(c, nobs, seeds)[i], r[i])
  {
    ghost var grown := GrowAll(c, nobs, seeds);
    r := [];
    while |r| < |seeds|
      invariant |r| <= |seeds| && SlotsFor(c, importance, grown, r)
      decreases |seeds| - |r|
    {
      GrowAllAt(c, nobs, seeds, |r|);
      var b := BuildOneTree(c, nobs, seeds[|r|], importance);
      ghost var done := r;
      r := r + [b];
      assert r[..|r| - 1] == done;
    }
    forall i | 0 <= i < |seeds|
      ensures Slot(c, importance, grown[i], r[i])
    {
      SlotAt(c, importance, grown, r, i);
    }
  }

  /**
   * Every slot's out-of-bag set is the ascending list of the training rows
   * its own seed's bag never drew.
   */
  lemma SlotOob(c: Config, nobs: nat, seeds: seq<nat>, importance: bool, r: seq<Built>, i: nat)
    requires Trainable(c, nobs) && i < |seeds| == |r| && Slot(c, importance, GrowAll(c, nobs, seeds)[i], r[i])
    ensures forall x: nat :: x in r[i].oob <==> x < nobs && x !in GenBaggingSets(nobs, DrawsOf(c.engine, seeds[i])).0
    ensures forall p, q :: 0 <= p < q < |r[i].oob| ==> r[i].oob[p] < r[i].oob[q]
  {
    GrowAllAt(c, nobs, seeds, i);
    var sets := GenBaggingSets(nobs, DrawsOf(c.engine, seeds[i]));
    assert r[i].oob == BuildTree(c, nobs, seeds[i]).2 == sets.1;
  }
}
