/**
 * Information-gain-ratio weighting (src/IGR.cpp): draw a weighted subspace of
 * the candidate variables and keep the one with the largest gain ratio.
 *
 * The integer weights the sampler sees stand for the square roots of the gain
 * ratios scaled to RAND_MAX; they are supplied by a caller-chosen `Weigh`
 * function that gives every candidate a positive weight.
 */
module Igr {
  import opened Base
  import Weighted

  type Pos = x: int | x >= 1 witness 1

  /** Integer sampling weight of a gain ratio. */
  type Weigh = real -> Pos

  function Weights(gainRatios: seq<real>, weigh: Weigh): (w: seq<int>)
    ensures |w| == |gainRatios|
    ensures forall i :: 0 <= i < |w| ==> w[i] >= 1
    ensures AllNonNeg(w)
  {
    seq(|gainRatios|, i requires 0 <= i < |gainRatios| => weigh(gainRatios[i]) as int)
  }

  predicate InRange(sample: seq<nat>, n: nat)
  {
    forall p :: 0 <= p < |sample| ==> sample[p] < n
  }

  /**
   * The loop of `getSelectedIdx`: a later element replaces the current best
   * when its gain ratio is at least as large, so among equal maxima the last
   * one sampled wins; -1 when the sample is empty.
   */
  function ScanMax(gainRatios: seq<real>, sample: seq<nat>): (k: int)
    requires InRange(sample, |gainRatios|)
    ensures k == -1 <==> |sample| == 0
    ensures -1 <= k < |gainRatios|
    ensures k >= 0 ==> exists p :: 0 <= p < |sample| && sample[p] == k &&
                        forall q :: p < q < |sample| ==> gainRatios[sample[q]] < gainRatios[k]
    ensures k >= 0 ==> forall p :: 0 <= p < |sample| ==> gainRatios[sample[p]] <= gainRatios[k]
  {
    if |sample| == 0 then -1
    else
      var init := sample[..|sample| - 1];
      var last := sample[|sample| - 1];
      var m := ScanMax(gainRatios, init);
      if m == -1 || gainRatios[last] >= gainRatios[m] then
        last
      else
        var p :| 0 <= p < |init| && init[p] == m &&
                 forall q :: p < q < |init| ==> gainRatios[init[q]] < gainRatios[m];
        assert forall q :: p < q < |sample| ==> gainRatios[sample[q]] < gainRatios[m] by {
          forall q | p < q < |sample|
            ensures gainRatios[sample[q]] < gainRatios[m]
          {
            if q < |init| { assert sample[q] == init[q]; }
          }
        }
        assert forall q :: 0 <= q < |init| ==> sample[q] == init[q];
        m
  }

  /** The weighted subspace `getSelectedIdx` draws: `nvars` clamped to the candidates. */
  function Subspace(gainRatios: seq<real>, nvars: nat, weigh: Weigh, s: Stream): (sample: seq<nat>)
    ensures |sample| == Min(nvars, |gainRatios|)
    ensures InRange(sample, |gainRatios|)
    ensures Distinct(sample)
    ensures nvars >= |gainRatios| ==> forall i :: 0 <= i < |gainRatios| ==> sample[i] == i
  {
    var size := if nvars >= |gainRatios| then |gainRatios| else nvars;
    Weighted.WeightedSample(Weights(gainRatios, weigh), size, s).value
  }

  /**
   * `getSelectedIdx`: an index of the candidate list whose gain ratio is the
   * largest of the subspace, or -1 when the subspace is empty.
   */
  function SelectedIdx(gainRatios: seq<real>, nvars: nat, weigh: Weigh, s: Stream): (k: int)
    ensures k == -1 <==> nvars == 0 || |gainRatios| == 0
    ensures k >= 0 ==> k < |gainRatios| && k in Subspace(gainRatios, nvars, weigh, s)
    ensures k >= 0 ==> forall i :: i in Subspace(gainRatios, nvars, weigh, s) ==> gainRatios[i] <= gainRatios[k]
    ensures k >= 0 && nvars >= |gainRatios| ==> forall i :: 0 <= i < |gainRatios| ==> gainRatios[i] <= gainRatios[k]
  {
    var sample := Subspace(gainRatios, nvars, weigh, s);
    var k := ScanMax(gainRatios, sample);
    assert k >= 0 && nvars >= |gainRatios| ==> forall i :: 0 <= i < |gainRatios| ==> gainRatios[i] <= gainRatios[k] by {
      if k >= 0 && nvars >= |gainRatios| {
        forall i | 0 <= i < |gainRatios|
          ensures gainRatios[i] <= gainRatios[k]
        {
          assert sample[i] == i;
        }
      }
    }
    k
  }
}
