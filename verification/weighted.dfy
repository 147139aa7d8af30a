/**
 * Weighted sampling without replacement (src/sampling.cpp, the `wst_` heap).
 *
 * The draw keeps a 1-based binary heap: slot k holds its own weight `w[k]`
 * and the sum `t[k]` of the weights in its subtree; a draw descends from the
 * root and then takes the chosen slot's weight out of every subtree sum on
 * the way back up.
 *
 * The descent as the source writes it compares with `>`, which lets a draw of
 * 0 stop at slot 1 even after slot 1's weight has been taken: index 0 can be
 * returned twice. `DrawsAsWritten` models that code and
 * `AsWrittenRepeatsIndexZero` exhibits the repeat; `Draws` is the corrected
 * descent, for which distinctness is proved, and the rest of the model uses it.
 */
module Weighted {
  import opened Base
  import opened Sampling
  import opened HeapPath

  /** Slot weights `w` and subtree sums `t`, both indexed 1..n (slot 0 unused). */
  datatype Heap = Heap(w: seq<int>, t: seq<int>)

  /** Subtree sum of slot `k`, slots past the end counting 0. */
  function T(h: Heap, k: nat): int
  {
    if 1 <= k < |h.t| then h.t[k] else 0
  }

  /** Slot `k`'s sum is its own weight plus its children's sums. */
  predicate SumAt(h: Heap, k: nat)
    requires 1 <= k < |h.t|
  {
    h.t[k] == (if k < |h.w| then h.w[k] else 0) + T(h, 2 * k) + T(h, 2 * k + 1)
  }

  /** The heap invariant: weights are non-negative and every slot sums its subtree. */
  predicate Sums(h: Heap)
  {
    && |h.w| == |h.t| >= 1
    && (forall k :: 1 <= k < |h.w| ==> h.w[k] >= 0)
    && (forall k :: 1 <= k < |h.t| ==> SumAt(h, k))
  }

  /** Total remaining mass. */
  function Mass(h: Heap): int
  {
    T(h, 1)
  }

  /** The slots that still carry weight. */
  function Positives(h: Heap): set<nat>
  {
    set k: nat | 1 <= k < |h.w| && h.w[k] >= 1
  }

  /** Reference definition of a subtree's weight. */
  function SubSum(w: seq<int>, k: nat): int
    decreases |w| - k
  {
    if 1 <= k < |w| then w[k] + SubSum(w, 2 * k) + SubSum(w, 2 * k + 1) else 0
  }

  /** The part of child `c`'s subtree that the build loop has folded in before handling index `i`. */
  function Folded(w: seq<int>, c: nat, i: nat): int
  {
    if i < c then SubSum(w, c) else 0
  }

  /** The build loop `for (i = n; i > 1; i--) wst[i>>1] += wst[i]`. */
  function BuildLoop(w: seq<int>, t: seq<int>, i: nat): (r: seq<int>)
    requires |t| == |w| >= 1 && i < |w|
    requires forall k :: 1 <= k < |w| ==> t[k] == w[k] + Folded(w, 2 * k, i) + Folded(w, 2 * k + 1, i)
    ensures |r| == |w| && r[0] == t[0]
    ensures forall k :: 1 <= k < |w| ==> r[k] == SubSum(w, k)
    decreases i
  {
    if i <= 1 then
      assert forall k :: 1 <= k < |w| ==> Folded(w, 2 * k, i) == SubSum(w, 2 * k) && Folded(w, 2 * k + 1, i) == SubSum(w, 2 * k + 1);
      t
    else
      var t' := t[i / 2 := t[i / 2] + t[i]];
      assert t[i] == w[i] + Folded(w, 2 * i, i) + Folded(w, 2 * i + 1, i);
      assert t[i] == SubSum(w, i);
      forall k | 1 <= k < |w|
        ensures t'[k] == w[k] + Folded(w, 2 * k, i - 1) + Folded(w, 2 * k + 1, i - 1)
      {
        assert t[k] == w[k] + Folded(w, 2 * k, i) + Folded(w, 2 * k + 1, i);
        if k == i / 2 {
          assert 2 * k == i || 2 * k + 1 == i;
        } else {
          assert 2 * k != i && 2 * k + 1 != i;
        }
      }
      BuildLoop(w, t', i - 1)
  }

  /** Heap over the given slot weights (`w[0]` is unused). */
  function Build(w: seq<int>): (h: Heap)
    requires |w| >= 1
    requires forall k :: 1 <= k < |w| ==> w[k] >= 0
    ensures h.w == w && Sums(h) && h.t[0] == w[0]
    ensures forall k :: 1 <= k < |w| ==> h.t[k] == SubSum(w, k)
  {
    var t := BuildLoop(w, w, |w| - 1);
    var h := Heap(w, t);
    forall k | 1 <= k < |w|
      ensures SumAt(h, k)
    {
      assert T(h, 2 * k) == SubSum(w, 2 * k) && T(h, 2 * k + 1) == SubSum(w, 2 * k + 1);
    }
    h
  }

  lemma {:induction false} SumsNonNeg(h: Heap, k: nat)
    requires Sums(h)
    ensures T(h, k) >= 0
    decreases |h.w| - k
  {
    if 1 <= k < |h.w| {
      assert SumAt(h, k);
      SumsNonNeg(h, 2 * k);
      SumsNonNeg(h, 2 * k + 1);
    }
  }

  /** The root's sum bounds every slot's weight: mass is positive while a slot carries weight. */
  lemma {:induction false} MassBoundsWeight(h: Heap, k: nat)
    requires Sums(h) && 1 <= k < |h.w|
    ensures Mass(h) >= h.t[k] >= h.w[k]
    decreases k
  {
    assert SumAt(h, k);
    SumsNonNeg(h, 2 * k);
    SumsNonNeg(h, 2 * k + 1);
    if k > 1 {
      var p := k / 2;
      assert SumAt(h, p);
      MassBoundsWeight(h, p);
      SumsNonNeg(h, 2 * p);
      SumsNonNeg(h, 2 * p + 1);
      assert k == 2 * p || k == 2 * p + 1;
    }
  }

  /**
   * The corrected descent: with 0 <= r < t[j] it stops at a slot whose own
   * weight exceeds what is left of r, so the chosen slot carries weight.
   */
  function Descend(h: Heap, j: nat, r: int): (k: nat)
    requires Sums(h) && 1 <= j < |h.w| && 0 <= r < h.t[j]
    ensures 1 <= k < |h.w| && h.w[k] >= 1
    decreases |h.w| - j
  {
    if r < h.w[j] then j
    else
      var r1 := r - h.w[j];
      var c := 2 * j;
      assert SumAt(h, j);
      SumsNonNeg(h, c);
      SumsNonNeg(h, c + 1);
      if r1 >= T(h, c) then Descend(h, c + 1, r1 - T(h, c))
      else Descend(h, c, r1)
  }

  /**
   * The descent as written: `while (rand_num > weights_[j]) { ... if (rand_num > wst_[j]) ... }`.
   * At the root r ranges over [0, t[1]); below it over [1, t[j]]. It never
   * leaves slots 1..n, but a draw of 0 stops at slot 1 whatever its weight.
   */
  function DescendAsWritten(h: Heap, j: nat, r: int): (k: nat)
    requires Sums(h) && 1 <= j < |h.w|
    requires j == 1 ==> 0 <= r < h.t[1]
    requires j != 1 ==> 1 <= r <= h.t[j]
    ensures 1 <= k < |h.w|
    decreases |h.w| - j
  {
    if r > h.w[j] then
      var r1 := r - h.w[j];
      var c := 2 * j;
      assert SumAt(h, j);
      SumsNonNeg(h, c);
      SumsNonNeg(h, c + 1);
      if r1 > T(h, c) then DescendAsWritten(h, c + 1, r1 - T(h, c))
      else DescendAsWritten(h, c, r1)
    else j
  }

  /** `while (j != 0) { wst_[j] -= w; j >>= 1; }` */
  function Dec(t: seq<int>, j: nat, d: int): (r: seq<int>)
    requires j < |t|
    ensures |r| == |t|
    ensures forall k :: 0 <= k < |t| ==> r[k] == (if Anc(k, j) then t[k] - d else t[k])
    decreases j
  {
    if j == 0 then t
    else
      var r := Dec(t[j := t[j] - d], j / 2, d);
      assert !Anc(j, j / 2) by {
        if Anc(j, j / 2) { AncLe(j, j / 2); }
      }
      r
  }

  /** Take slot `j`'s weight out of the heap. */
  function Take(h: Heap, j: nat): Heap
    requires 1 <= j < |h.w| == |h.t|
  {
    Heap(h.w[j := 0], Dec(h.t, j, h.w[j]))
  }

  /** A draw keeps the heap invariant, and the mass drops by exactly the chosen weight. */
  lemma TakeKeepsSums(h: Heap, j: nat)
    requires Sums(h) && 1 <= j < |h.w|
    ensures Sums(Take(h, j))
    ensures Mass(Take(h, j)) == Mass(h) - h.w[j]
    ensures Positives(Take(h, j)) == Positives(h) - {j}
    ensures h.w[j] >= 1 ==> |Positives(Take(h, j))| == |Positives(h)| - 1
  {
    var h' := Take(h, j);
    var d := h.w[j];
    forall k | 1 <= k < |h'.t|
      ensures SumAt(h', k)
    {
      assert SumAt(h, k);
      var c0, c1 := 2 * k, 2 * k + 1;
      assert T(h', c0) == if Anc(c0, j) then T(h, c0) - d else T(h, c0) by {
        if Anc(c0, j) { AncLe(c0, j); }
      }
      assert T(h', c1) == if Anc(c1, j) then T(h, c1) - d else T(h, c1) by {
        if Anc(c1, j) { AncLe(c1, j); }
      }
      if !Anc(k, j) {
        if Anc(c0, j) { AncParent(c0, j); }
        if Anc(c1, j) { AncParent(c1, j); }
        assert k != j;
      } else if k == j {
        if Anc(c0, j) { AncLe(c0, j); }
        if Anc(c1, j) { AncLe(c1, j); }
      } else {
        AncChild(k, j);
        AncSiblings(k, j);
        AncLe(k, j);
      }
    }
    AncRoot(j);
    assert Positives(h') == Positives(h) - {j};
  }

  /** Number of slots still carrying weight, which bounds the draws that can still succeed. */
  lemma PositivesBound(h: Heap)
    requires Sums(h) && |Positives(h)| >= 1
    ensures |h.w| >= 2 && Mass(h) >= 1
  {
    var k :| k in Positives(h);
    MassBoundsWeight(h, k);
  }

  /**
   * The draw loop with the corrected descent: `k` draws, the `i`-th fed by
   * stream output `i`. `None` stands for a draw over an empty range, which
   * the source leaves undefined.
   */
  function Draws(h: Heap, s: Stream, i: nat, k: nat): (r: Option<seq<nat>>)
    requires Sums(h)
    ensures r.Some? ==> |r.value| == k
    ensures r.Some? ==> FromPositives(h, r.value)
    ensures r.Some? ==> Distinct(r.value)
    ensures |Positives(h)| >= k ==> r.Some?
    decreases k
  {
    if k == 0 then Some([])
    else if |h.w| < 2 || Mass(h) <= 0 then
      assert |Positives(h)| < k by {
        if |Positives(h)| >= k { PositivesBound(h); }
      }
      None
    else
      var j := Descend(h, 1, Uniform(s, i, Mass(h)));
      TakeKeepsSums(h, j);
      var rest := Draws(Take(h, j), s, i + 1, k - 1);
      if rest.None? then None
      else
        PrependDraw(h, j, rest.value);
        Some([j - 1] + rest.value)
  }

  /** Every index in `r` names a slot that carries weight in `h`. */
  predicate FromPositives(h: Heap, r: seq<nat>)
  {
    forall p :: 0 <= p < |r| ==> r[p] + 1 < |h.w| && h.w[r[p] + 1] >= 1
  }

  /** A draw prepended to the later draws keeps them distinct slots with weight. */
  lemma PrependDraw(h: Heap, j: nat, rest: seq<nat>)
    requires Sums(h) && 1 <= j < |h.w| && h.w[j] >= 1
    requires FromPositives(Take(h, j), rest) && Distinct(rest)
    ensures FromPositives(h, [j - 1] + rest)
    ensures Distinct([j - 1] + rest)
  {
    var r := [j - 1] + rest;
    assert forall p :: 1 <= p < |r| ==> r[p] == rest[p - 1];
  }

  /** The draw loop exactly as written, with `DescendAsWritten`. */
  function DrawsAsWritten(h: Heap, s: Stream, i: nat, k: nat): (r: Option<seq<nat>>)
    requires Sums(h)
    ensures r.Some? ==> |r.value| == k && forall p :: 0 <= p < k ==> r.value[p] + 1 < |h.w|
    decreases k
  {
    if k == 0 then Some([])
    else if |h.w| < 2 || Mass(h) <= 0 then None
    else
      var j := DescendAsWritten(h, 1, Uniform(s, i, Mass(h)));
      TakeKeepsSums(h, j);
      var rest := DrawsAsWritten(Take(h, j), s, i + 1, k - 1);
      if rest.None? then None else Some([j - 1] + rest.value)
  }

  /** With zero total weight every slot gets the uniform weight RAND_MAX / n. */
  function Normalize(weights: seq<int>): (r: seq<int>)
    requires |weights| > 0 && AllNonNeg(weights)
    ensures |r| == |weights| && AllNonNeg(r)
    ensures Sum(weights) != 0 ==> r == weights
    ensures Sum(weights) == 0 ==> forall i, j :: 0 <= i < j < |r| ==> r[i] == r[j]
    ensures Sum(weights) == 0 && |weights| <= RAND_MAX ==> forall i :: 0 <= i < |r| ==> r[i] >= 1
  {
    if Sum(weights) == 0 then seq(|weights|, _ => RAND_MAX / |weights|) else weights
  }

  /** The heap built by `nonReplaceWeightedSample`, item `i` in slot `i + 1`. */
  function HeapOf(weights: seq<int>): (h: Heap)
    requires |weights| > 0 && AllNonNeg(weights)
    ensures Sums(h) && |h.w| == |weights| + 1
    ensures forall i :: 0 <= i < |weights| ==> h.w[i + 1] == Normalize(weights)[i]
  {
    Build([0] + Normalize(weights))
  }

  function Iota(n: nat): (r: seq<nat>)
    ensures |r| == n && forall i :: 0 <= i < n ==> r[i] == i
  {
    seq(n, i => i)
  }

  /**
   * `nonReplaceWeightedSample(weights, nselect)`: the indexes of the chosen
   * items. `nselect` is clamped to n, and when it reaches n all indexes are
   * returned in order.
   */
  function WeightedSample(weights: seq<int>, nselect: nat, s: Stream): (r: Option<seq<nat>>)
    requires AllNonNeg(weights)
    ensures nselect >= |weights| ==> r == Some(Iota(|weights|))
    ensures r.Some? ==> |r.value| == Min(nselect, |weights|)
    ensures r.Some? ==> forall p :: 0 <= p < |r.value| ==> r.value[p] < |weights|
    ensures r.Some? ==> Distinct(r.value)
    ensures (forall i :: 0 <= i < |weights| ==> weights[i] >= 1) ==> r.Some?
  {
    var n := |weights|;
    if nselect >= n then Some(Iota(n))
    else
      var h := HeapOf(weights);
      PositiveWeightsFillHeap(weights);
      Draws(h, s, 0, nselect)
  }

  /** The slots 1..m-1. */
  function Slots(m: nat): (r: set<nat>)
    ensures forall k :: k in r <==> 1 <= k < m
    ensures m >= 1 ==> |r| == m - 1
  {
    if m <= 1 then {} else Slots(m - 1) + {m - 1}
  }

  lemma SetSizeLe(a: set<nat>, b: set<nat>)
    requires a <= b
    ensures |a| <= |b|
  {
    assert b == a + (b - a);
  }

  /** With every weight positive, every one of the n slots carries weight. */
  lemma PositiveWeightsFillHeap(weights: seq<int>)
    requires |weights| > 0 && AllNonNeg(weights)
    ensures (forall i :: 0 <= i < |weights| ==> weights[i] >= 1) ==> |Positives(HeapOf(weights))| >= |weights|
  {
    var h := HeapOf(weights);
    if forall i :: 0 <= i < |weights| ==> weights[i] >= 1 {
      assert Sum(weights) != 0 by { SumNonNeg(weights); }
      forall k | k in Slots(|h.w|)
        ensures k in Positives(h)
      {
        assert h.w[k] == weights[k - 1];
      }
      SetSizeLe(Slots(|h.w|), Positives(h));
    }
  }

  /** `nonReplaceWeightedSample` exactly as written. */
  function WeightedSampleAsWritten(weights: seq<int>, nselect: nat, s: Stream): (r: Option<seq<nat>>)
    requires AllNonNeg(weights)
    ensures nselect >= |weights| ==> r == Some(Iota(|weights|))
    ensures r.Some? ==> |r.value| == Min(nselect, |weights|)
    ensures r.Some? ==> forall p :: 0 <= p < |r.value| ==> r.value[p] < |weights|
  {
    var n := |weights|;
    if nselect >= n then Some(Iota(n))
    else DrawsAsWritten(HeapOf(weights), s, 0, nselect)
  }

  /**
   * The overload over variable indexes: the sampled positions mapped through
   * `vars`, same length and order.
   */
  function WeightedSampleVars(vars: seq<int>, weights: seq<int>, nselect: nat, s: Stream): (r: Option<seq<int>>)
    requires |vars| == |weights| && AllNonNeg(weights)
    ensures r.Some? <==> WeightedSample(weights, nselect, s).Some?
    ensures r.Some? ==> |r.value| == |WeightedSample(weights, nselect, s).value|
    ensures r.Some? ==> forall p :: 0 <= p < |r.value| ==> r.value[p] == vars[WeightedSample(weights, nselect, s).value[p]]
    ensures nselect >= |vars| ==> r == Some(vars)
  {
    match WeightedSample(weights, nselect, s)
    case None => None
    case Some(idx) =>
      var r := seq(|idx|, p requires 0 <= p < |idx| => vars[idx[p]]);
      assert nselect >= |vars| ==> r == vars;
      Some(r)
  }

  /** The heap built for weights 5, 5, 5, and the heap after slot 1 is taken. */
  lemma ExampleHeaps()
    ensures HeapOf([5, 5, 5]) == Heap([0, 5, 5, 5], [0, 15, 5, 5])
    ensures Take(Heap([0, 5, 5, 5], [0, 15, 5, 5]), 1) == Heap([0, 0, 5, 5], [0, 10, 5, 5])
  {
    assert Sum([5, 5, 5]) == 15;
    assert Normalize([5, 5, 5]) == [5, 5, 5];
    var w := [0, 5, 5, 5];
    assert [0] + [5, 5, 5] == w;
    assert SubSum(w, 2) == 5 && SubSum(w, 3) == 5;
    assert SubSum(w, 1) == 15;
    assert Anc(1, 1) && !Anc(0, 1) && !Anc(2, 1) && !Anc(3, 1);
  }

  /** A stream whose every output is 0. */
  const ZeroStream: Stream := _ => 0

  /** After slot 1 is taken, the source's descent stops at slot 1 again on a draw of 0. */
  lemma AsWrittenSecondDraw()
    ensures Sums(Heap([0, 0, 5, 5], [0, 10, 5, 5]))
    ensures DrawsAsWritten(Heap([0, 0, 5, 5], [0, 10, 5, 5]), ZeroStream, 1, 1) == Some([0])
  {
    var h1 := Heap([0, 0, 5, 5], [0, 10, 5, 5]);
    assert SumAt(h1, 1) && SumAt(h1, 2) && SumAt(h1, 3);
    assert Uniform(ZeroStream, 1, 10) == 0;
    assert DescendAsWritten(h1, 1, 0) == 1;
    TakeKeepsSums(h1, 1);
    assert DrawsAsWritten(Take(h1, 1), ZeroStream, 2, 0) == Some([]);
    assert [0] + [] == [0];
  }

  /**
   * With weights 5, 5, 5, two draws and a stream of zeros, the source's
   * descent returns index 0 twice: the second draw of 0 stops at slot 1,
   * whose weight is already 0.
   */
  lemma AsWrittenRepeatsIndexZero()
    ensures WeightedSampleAsWritten([5, 5, 5], 2, ZeroStream) == Some([0, 0])
  {
    var h := Heap([0, 5, 5, 5], [0, 15, 5, 5]);
    ExampleHeaps();
    AsWrittenSecondDraw();
    assert Uniform(ZeroStream, 0, 15) == 0;
    assert DescendAsWritten(h, 1, 0) == 1;
    assert [0] + [0] == [0, 0];
  }

  /** With slot 1 taken, the corrected descent on a draw of 0 reaches slot 2. */
  lemma CorrectedSecondDraw()
    ensures Sums(Heap([0, 0, 5, 5], [0, 10, 5, 5]))
    ensures Draws(Heap([0, 0, 5, 5], [0, 10, 5, 5]), ZeroStream, 1, 1) == Some([1])
  {
    var h1 := Heap([0, 0, 5, 5], [0, 10, 5, 5]);
    assert SumAt(h1, 1) && SumAt(h1, 2) && SumAt(h1, 3);
    assert Uniform(ZeroStream, 1, 10) == 0;
    assert Descend(h1, 2, 0) == 2;
    assert Descend(h1, 1, 0) == 2;
    TakeKeepsSums(h1, 2);
    assert Draws(Take(h1, 2), ZeroStream, 2, 0) == Some([]);
    assert [1] + [] == [1];
  }

  /** The corrected descent on the same input returns two different indexes. */
  lemma CorrectedDrawsDistinctOnRepeatInput()
    ensures WeightedSample([5, 5, 5], 2, ZeroStream) == Some([0, 1])
  {
    ExampleHeaps();
    CorrectedFirstDraw();
  }

  /** The corrected descent's first draw of 0 takes slot 1, then slot 2. */
  lemma CorrectedFirstDraw()
    ensures Sums(Heap([0, 5, 5, 5], [0, 15, 5, 5]))
    ensures Draws(Heap([0, 5, 5, 5], [0, 15, 5, 5]), ZeroStream, 0, 2) == Some([0, 1])
  {
    var h := Heap([0, 5, 5, 5], [0, 15, 5, 5]);
    var h1 := Heap([0, 0, 5, 5], [0, 10, 5, 5]);
    FirstDescent();
    CorrectedSecondDraw();
    assert Uniform(ZeroStream, 0, Mass(h)) == 0;
    assert Draws(h1, ZeroStream, 1, 1) == Some([1]);
    assert [0] + [1] == [0, 1];
  }

  /** On the heap for weights 5, 5, 5, a draw of 0 takes slot 1. */
  lemma FirstDescent()
    ensures Sums(Heap([0, 5, 5, 5], [0, 15, 5, 5]))
    ensures Mass(Heap([0, 5, 5, 5], [0, 15, 5, 5])) == 15
    ensures Descend(Heap([0, 5, 5, 5], [0, 15, 5, 5]), 1, 0) == 1
    ensures Take(Heap([0, 5, 5, 5], [0, 15, 5, 5]), 1) == Heap([0, 0, 5, 5], [0, 10, 5, 5])
  {
    ExampleHeaps();
  }
}
