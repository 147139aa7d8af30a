/**
 * Sampling without replacement (src/sampling.cpp), unweighted: each chosen
 * element is swapped to the end of the live prefix. The weighted draw is in
 * module `Weighted`.
 */
module Sampling {
  import opened Base

  /** RAND_MAX of the GNU C library. */
  const RAND_MAX: nat := 2147483647

  // ---------------------------------------------------------------------------
  // Unweighted draw

  /** `multiset` bookkeeping of one swap-to-end step. */
  lemma RemoveSlot(live: seq<int>, nleft: nat, x: nat)
    requires x < nleft <= |live|
    ensures multiset(live[x := live[nleft - 1]][..nleft - 1]) + multiset{live[x]} == multiset(live[..nleft])
    ensures Distinct(live[..nleft]) ==>
              Distinct(live[x := live[nleft - 1]][..nleft - 1]) && live[x] !in live[x := live[nleft - 1]][..nleft - 1]
  {
    var a := live[..nleft];
    var v := a[nleft - 1];
    var u := a[x := v];
    var b := live[x := live[nleft - 1]][..nleft - 1];
    assert u == b + [v];
    assert multiset(u) == multiset(a) - multiset{a[x]} + multiset{v};
    if Distinct(a) {
      RemoveSlotDistinct(a, x, b);
    }
  }

  /** Moving the last element into slot `x` and dropping the last slot keeps the rest distinct. */
  lemma RemoveSlotDistinct(a: seq<int>, x: nat, b: seq<int>)
    requires x < |a| && Distinct(a)
    requires |b| == |a| - 1 && forall i :: 0 <= i < |b| ==> b[i] == a[if i == x then |a| - 1 else i]
    ensures Distinct(b) && a[x] !in b
  {
    forall i, j | 0 <= i < j < |b|
      ensures b[i] != b[j]
    {
      assert b[i] == a[if i == x then |a| - 1 else i];
      assert b[j] == a[if j == x then |a| - 1 else j];
    }
    forall i | 0 <= i < |b|
      ensures b[i] != a[x]
    {
      assert b[i] == a[if i == x then |a| - 1 else i];
    }
  }

  /**
   * The loop of `nonReplaceRandomSample`: draw `k` elements from the live
   * prefix `live[..nleft]`, moving the last live element into the drawn slot.
   */
  function SwapToEnd(live: seq<int>, nleft: nat, s: Stream, i: nat, k: nat): (r: seq<int>)
    requires k <= nleft <= |live|
    ensures |r| == k
    ensures multiset(r) <= multiset(live[..nleft])
    ensures Distinct(live[..nleft]) ==> Distinct(r)
    decreases k
  {
    if k == 0 then []
    else
      var x := Uniform(s, i, nleft);
      var live' := live[x := live[nleft - 1]];
      var rest := SwapToEnd(live', nleft - 1, s, i + 1, k - 1);
      RemoveSlot(live, nleft, x);
      assert multiset([live[x]] + rest) == multiset{live[x]} + multiset(rest);
      assert Distinct(live[..nleft]) ==> live[x] !in multiset(rest);
      [live[x]] + rest
  }

  /**
   * Draw `nselect` of `vars` without replacement; when `nselect` is not below
   * the number of elements, `vars` itself is returned.
   */
  function RandomSample(vars: seq<int>, nselect: nat, s: Stream): (r: seq<int>)
    ensures nselect >= |vars| ==> r == vars
    ensures nselect < |vars| ==> |r| == nselect
    ensures multiset(r) <= multiset(vars)
    ensures Distinct(vars) ==> Distinct(r)
  {
    if nselect >= |vars| then vars
    else
      assert vars[..|vars|] == vars;
      SwapToEnd(vars, |vars|, s, 0, nselect)
  }
}
