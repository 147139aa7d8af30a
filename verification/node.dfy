/**
 * Tree nodes and their flat record form (src/node.h).
 *
 * A node is a leaf, carrying its majority label and label counts, or an
 * internal node, carrying its split variable, impurity figures and number of
 * child slots. `save` flattens a node into a vector of doubles and the
 * deserialising constructor reads one back; the record's entries are R
 * doubles, `None` standing for NA_REAL.
 */
module Nodes {
  import opened Base

  /** `NodeType` codes of src/utility.h. */
  const LEAFNODE: int := 0
  const INTERNALNODE: int := 1

  /** An R double; `None` is NA_REAL. */
  type Num = Option<real>

  /** The fields of one node, without its children. */
  datatype Rec =
    | LeafRec(nobs: int, labelIdx: int, freq: seq<int>)
    | InternalRec(nobs: int, nchild: nat, varIdx: nat, infoGain: Num, splitInfo: Num, gainRatio: Num, splitValue: Num)

  /** `nchild()`: the number of child slots, 0 for a leaf. */
  function NChild(r: Rec): (k: nat)
    ensures r.LeafRec? ==> k == 0
    ensures r.InternalRec? ==> k == r.nchild
  {
    if r.LeafRec? then 0 else r.nchild
  }

  /** Conversion of a double to `int`: truncation toward zero. */
  function Trunc(x: real): (n: int)
    ensures x >= 0.0 ==> n as real <= x < n as real + 1.0
    ensures x < 0.0 ==> n as real - 1.0 < x <= n as real
  {
    if x >= 0.0 then x.Floor else -((-x).Floor)
  }

  /** An integer field survives the trip through a double. */
  lemma TruncInt(n: int)
    ensures Trunc(n as real) == n
  {
  }

  function OfInt(n: int): Num
  {
    Some(n as real)
  }

  /** Every entry of the tail is a number, not NA. */
  predicate AllSome(s: seq<Num>)
  {
    forall i :: 0 <= i < |s| ==> s[i].Some?
  }

  /** The label counts a leaf record ends with. */
  function Ints(s: seq<Num>): (r: seq<int>)
    requires AllSome(s)
    ensures |r| == |s| && forall i :: 0 <= i < |s| ==> r[i] == Trunc(s[i].value)
  {
    seq(|s|, i requires 0 <= i < |s| => Trunc(s[i].value))
  }

  function Nums(s: seq<int>): (r: seq<Num>)
    ensures |r| == |s| && AllSome(r) && Ints(r) == s
  {
    var r := seq(|s|, i requires 0 <= i < |s| => OfInt(s[i]));
    assert forall i :: 0 <= i < |s| ==> Trunc(r[i].value) == s[i] by {
      forall i | 0 <= i < |s| { TruncInt(s[i]); }
    }
    r
  }

  /** A record `save` can write and the constructor read: the variable is known, and a discrete split has no split value. */
  predicate RecFits(r: Rec, isDisc: seq<bool>)
  {
    r.InternalRec? ==> r.varIdx < |isDisc| && (isDisc[r.varIdx] ==> r.splitValue.None?)
  }

  /**
   * `Node::save`: type and size, then for a leaf its label and counts, for an
   * internal node its child count, variable, information gain, split
   * information and gain ratio, with the split value only when the variable
   * is not discrete.
   */
  function Encode(r: Rec, isDisc: seq<bool>): (rec: seq<Num>)
    requires RecFits(r, isDisc)
    ensures r.LeafRec? ==> |rec| == 3 + |r.freq| && rec[0] == OfInt(LEAFNODE) && rec[3..] == Nums(r.freq)
    ensures r.InternalRec? ==> |rec| == (if isDisc[r.varIdx] then 7 else 8) && rec[0] == OfInt(INTERNALNODE)
  {
    match r
    case LeafRec(nobs, lab, freq) =>
      var rec := [OfInt(LEAFNODE), OfInt(nobs), OfInt(lab)] + Nums(freq);
      assert rec[3..] == Nums(freq);
      rec
    case InternalRec(nobs, nchild, v, ig, si, gr, sv) =>
      var head := [OfInt(INTERNALNODE), OfInt(nobs), OfInt(nchild), OfInt(v), ig, si, gr];
      if isDisc[v] then head else head + [sv]
  }

  /** The constructor reads back every record `save` writes. */
  lemma RoundTrip(r: Rec, isDisc: seq<bool>)
    requires RecFits(r, isDisc)
    ensures Decode(Encode(r, isDisc), isDisc) == Ok(r)
  {
    var rec := Encode(r, isDisc);
    TruncInt(r.nobs);
    assert IntAt(rec, 1) == Ok(r.nobs);
    if r.LeafRec? {
      LeafRoundTrip(r, rec);
    } else {
      InternalRoundTrip(r, isDisc, rec);
    }
  }

  lemma LeafRoundTrip(r: Rec, rec: seq<Num>)
    requires r.LeafRec? && rec == Encode(r, [])
    ensures Decode(rec, []) == Ok(r) && forall isDisc :: Decode(rec, isDisc) == Ok(r)
  {
    TruncInt(r.nobs);
    TruncInt(r.labelIdx);
    TruncInt(LEAFNODE);
    assert IntAt(rec, 0) == Ok(LEAFNODE);
    assert IntAt(rec, 1) == Ok(r.nobs);
    assert IntAt(rec, 2) == Ok(r.labelIdx);
  }

  lemma InternalRoundTrip(r: Rec, isDisc: seq<bool>, rec: seq<Num>)
    requires r.InternalRec? && RecFits(r, isDisc) && rec == Encode(r, isDisc)
    ensures Decode(rec, isDisc) == Ok(r)
  {
    TruncInt(r.nobs);
    TruncInt(r.nchild);
    TruncInt(r.varIdx);
    TruncInt(INTERNALNODE);
    assert IntAt(rec, 0) == Ok(INTERNALNODE);
    assert IntAt(rec, 1) == Ok(r.nobs);
    assert IntAt(rec, 2) == Ok(r.nchild);
    assert IntAt(rec, 3) == Ok(r.varIdx);
  }

  /** An integer field: NA cannot be read as an integer. */
  function IntAt(rec: seq<Num>, i: nat): (r: Result<int>)
    ensures r.Ok? <==> i < |rec| && rec[i].Some?
    ensures r.Ok? ==> r.value == Trunc(rec[i].value)
  {
    if i < |rec| && rec[i].Some? then Ok(Trunc(rec[i].value)) else Err(Malformed)
  }

  /**
   * The deserialising constructor: a type of LEAFNODE reads a leaf whose
   * counts are all remaining entries; any other type reads an internal node,
   * with a split value only for a non-discrete variable. A record too short
   * for its fields, NA in an integer field, a negative child count or an
   * unknown variable is rejected.
   */
  function Decode(rec: seq<Num>, isDisc: seq<bool>): (r: Result<Rec>)
    ensures r.Ok? ==> RecFits(r.value, isDisc)
    ensures r.Ok? && r.value.LeafRec? ==> |rec| >= 3 && IntAt(rec, 0) == Ok(LEAFNODE)
    ensures r.Ok? && r.value.InternalRec? ==> |rec| >= 7 && IntAt(rec, 0).Ok? && IntAt(rec, 0).value != LEAFNODE
  {
    var ty := IntAt(rec, 0);
    var nobs := IntAt(rec, 1);
    if ty.Err? || nobs.Err? then Err(Malformed)
    else if ty.value == LEAFNODE then
      var lab := IntAt(rec, 2);
      if lab.Err? || !AllSome(rec[3..]) then Err(Malformed)
      else Ok(LeafRec(nobs.value, lab.value, Ints(rec[3..])))
    else
      var nchild := IntAt(rec, 2);
      var v := IntAt(rec, 3);
      if nchild.Err? || v.Err? || |rec| < 7 then Err(Malformed)
      else if nchild.value < 0 || !(0 <= v.value < |isDisc|) then Err(Malformed)
      else if isDisc[v.value] then
        Ok(InternalRec(nobs.value, nchild.value, v.value, rec[4], rec[5], rec[6], None))
      else if |rec| < 8 then Err(Malformed)
      else Ok(InternalRec(nobs.value, nchild.value, v.value, rec[4], rec[5], rec[6], rec[7]))
  }

  /**
   * `setLabelFreqCount(counts, true)`: the label becomes the first index of
   * the largest count, as `max_element` finds it.
   */
  function MajorityLabel(counts: seq<int>): (l: nat)
    requires |counts| > 0
    ensures l < |counts|
    ensures forall i :: 0 <= i < |counts| ==> counts[i] <= counts[l]
    ensures forall i :: 0 <= i < l ==> counts[i] < counts[l]
  {
    ArgMax(counts)
  }

  /**
   * `getLabelDstr`: a leaf's counts divided by its size, or by the sum of its
   * counts when its size is 0. An internal node is rejected. A leaf without
   * counts has the empty distribution, since nothing is divided; a zero
   * denominator under some count, where the source produces NaN, is reported
   * as an empty node.
   */
  function LabelDstr(r: Rec): (d: Result<seq<real>>)
    ensures r.InternalRec? ==> d == Err(NonLeafNode)
    ensures r.LeafRec? && d.Ok? ==> |d.value| == |r.freq|
    ensures r.LeafRec? ==> (d.Err? <==> Denominator(r) == 0 && |r.freq| > 0)
    ensures r.LeafRec? && |r.freq| == 0 ==> d == Ok([])
    ensures r.LeafRec? && d.Ok? ==>
              forall i :: 0 <= i < |r.freq| ==> d.value[i] * (Denominator(r) as real) == r.freq[i] as real
  {
    if r.InternalRec? then Err(NonLeafNode)
    else if |r.freq| == 0 then Ok([])
    else
      var n := Denominator(r);
      if n == 0 then Err(EmptyNode)
      else Ok(Scaled(r.freq, n as real))
  }

  /** The size a leaf's distribution is taken over. */
  function Denominator(r: Rec): int
    requires r.LeafRec?
  {
    if r.nobs == 0 then Sum(r.freq) else r.nobs
  }

  /** Counts divided by `n`. */
  function Scaled(f: seq<int>, n: real): (d: seq<real>)
    requires n != 0.0
    ensures |d| == |f| && forall i :: 0 <= i < |f| ==> d[i] * n == f[i] as real
  {
    seq(|f|, i requires 0 <= i < |f| => f[i] as real / n)
  }

  /** A leaf whose size is the sum of its counts, or 0, has a distribution summing to 1. */
  lemma DstrSumsToOne(r: Rec)
    requires r.LeafRec? && Sum(r.freq) != 0 && (r.nobs == 0 || r.nobs == Sum(r.freq))
    ensures LabelDstr(r).Ok? && SumReal(LabelDstr(r).value) == 1.0
  {
    var n := Sum(r.freq) as real;
    assert Denominator(r) as real == n;
    ScaledSum(r.freq, n);
    assert LabelDstr(r) == Ok(Scaled(r.freq, n));
    assert n / n == 1.0;
  }

  lemma {:induction false} ScaledSum(f: seq<int>, n: real)
    requires n != 0.0
    ensures SumReal(Scaled(f, n)) == Sum(f) as real / n
  {
    if |f| > 0 {
      ScaledSum(f[1..], n);
      assert Scaled(f, n)[1..] == Scaled(f[1..], n);
    }
  }
}
