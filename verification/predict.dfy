/**
 * Routing an observation down a tree (src/tree.h): `getDataValue` and
 * `predictNode`.
 *
 * A discrete node sends the observation to the child of its code minus one;
 * a continuous node to child 0 when the value is at most the split value and
 * to child 1 otherwise. While a variable's importance is assessed, its values
 * come from a permuted copy instead of the dataset.
 */
module Predict {
  import opened Base
  import opened Data
  import opened Nodes
  import opened Bfs

  /** `perm_var_idx_`, -1 when no variable is permuted, and `perm_var_data_`. */
  datatype Perm = Perm(v: int, data: seq<real>)

  const NoPerm: Perm := Perm(-1, [])

  /** The rows a column covers. */
  function Rows(col: Column): nat
  {
    match col
    case Disc(codes) => |codes|
    case Cont(values) => |values|
  }

  /** A dataset value as a double: a discrete code, or a numeric value. */
  function ColumnValue(col: Column, o: nat): real
    requires o < Rows(col)
  {
    match col
    case Disc(codes) => codes[o] as real
    case Cont(values) => values[o]
  }

  /** A value of the dataset; a missing column or row is reported. */
  function DataValue(cols: seq<Column>, v: nat, o: nat): (r: Result<real>)
    ensures r.Ok? <==> v < |cols| && o < Rows(cols[v])
    ensures r.Ok? ==> r.value == ColumnValue(cols[v], o)
  {
    if v < |cols| && o < Rows(cols[v]) then Ok(ColumnValue(cols[v], o)) else Err(BadPosition)
  }

  /**
   * `getDataValue`: the permuted copy for the permuted variable, the dataset
   * for every other one; with no variable permuted, always the dataset.
   */
  function GetDataValue(cols: seq<Column>, perm: Perm, v: nat, o: nat): (r: Result<real>)
    ensures v as int != perm.v ==> r == DataValue(cols, v, o)
    ensures perm.v < 0 ==> r == DataValue(cols, v, o)
    ensures v as int == perm.v ==> (r.Ok? <==> o < |perm.data|) && (r.Ok? ==> r.value == perm.data[o])
  {
    if v as int != perm.v then DataValue(cols, v, o)
    else if o < |perm.data| then Ok(perm.data[o])
    else Err(BadPosition)
  }

  /**
   * The child an internal node sends value `x` to: code minus one for a
   * discrete variable (the double truncated back to an integer); for a
   * continuous one 0 when `x <= split value`, else 1. A split value of NA
   * compares false, so everything goes to child 1.
   */
  function Route(h: Rec, disc: bool, x: real): (k: int)
    requires h.InternalRec?
    ensures !disc ==> (k == 0 <==> h.splitValue.Some? && x <= h.splitValue.value) && (k == 0 || k == 1)
    ensures disc && x >= 0.0 ==> (k + 1) as real <= x < (k + 2) as real
  {
    if disc then Trunc(x) - 1
    else if h.splitValue.Some? && x <= h.splitValue.value then 0
    else 1
  }

  /** Some node of `t` carries `rec`. */
  ghost predicate Carries(t: Tree, rec: Rec)
  {
    exists u :: Sub(t, u) && u.head == rec
  }

  /**
   * `predictNode`: follow the routes from `t` until a leaf. A child index
   * outside the node's children, an unknown variable or a missing value is
   * reported instead of being read out of bounds.
   */
  function PredictNode(t: Tree, isDisc: seq<bool>, cols: seq<Column>, perm: Perm, o: nat): (r: Result<Rec>)
    ensures r.Ok? ==> r.value.LeafRec? && Carries(t, r.value)
    ensures t.head.LeafRec? ==> r == Ok(t.head)
    decreases t
  {
    if t.head.LeafRec? then
      assert Sub(t, t);
      Ok(t.head)
    else
      var v := t.head.varIdx;
      if v >= |isDisc| then Err(Malformed)
      else
        match GetDataValue(cols, perm, v, o)
        case Err(e) => Err(e)
        case Ok(x) =>
          var k := Route(t.head, isDisc[v], x);
          if 0 <= k < |t.kids| then
            var r := PredictNode(t.kids[k], isDisc, cols, perm, o);
            if r.Ok? then CarriedByKid(t, k, r.value); r else r
          else Err(Malformed)
  }

  lemma CarriedByKid(t: Tree, k: nat, rec: Rec)
    requires k < |t.kids| && Carries(t.kids[k], rec)
    ensures Carries(t, rec)
  {
    var u :| Sub(t.kids[k], u) && u.head == rec;
    assert Sub(t, u);
  }

  /** `predictLabel`: the label of the leaf reached. */
  function PredictLabel(t: Tree, isDisc: seq<bool>, cols: seq<Column>, perm: Perm, o: nat): (r: Result<int>)
    ensures r.Ok? <==> PredictNode(t, isDisc, cols, perm, o).Ok?
    ensures r.Ok? ==> r.value == PredictNode(t, isDisc, cols, perm, o).value.labelIdx
  {
    match PredictNode(t, isDisc, cols, perm, o)
    case Ok(leaf) => Ok(leaf.labelIdx)
    case Err(e) => Err(e)
  }

  /** No internal node of `t` splits on `v`. */
  ghost predicate Unused(t: Tree, v: nat)
  {
    forall u :: Sub(t, u) && u.head.InternalRec? ==> u.head.varIdx != v
  }

  /**
   * Permuting a variable no node splits on changes no prediction: the reason
   * importance is assessed only for used variables.
   */
  lemma {:induction false} UnusedPermIgnored(t: Tree, isDisc: seq<bool>, cols: seq<Column>, v: nat, data: seq<real>, o: nat)
    requires Unused(t, v)
    ensures PredictNode(t, isDisc, cols, Perm(v, data), o) == PredictNode(t, isDisc, cols, NoPerm, o)
    decreases t
  {
    if t.head.InternalRec? {
      assert Sub(t, t);
      var w := t.head.varIdx;
      if w < |isDisc| {
        assert GetDataValue(cols, Perm(v, data), w, o) == GetDataValue(cols, NoPerm, w, o);
        forall k | 0 <= k < |t.kids|
          ensures PredictNode(t.kids[k], isDisc, cols, Perm(v, data), o) == PredictNode(t.kids[k], isDisc, cols, NoPerm, o)
        {
          forall u | Sub(t.kids[k], u) && u.head.InternalRec?
            ensures u.head.varIdx != v
          {
            assert Sub(t, u);
          }
          UnusedPermIgnored(t.kids[k], isDisc, cols, v, data, o);
        }
      }
    }
  }

  /** A saved and reloaded tree routes every observation to the same leaf. */
  lemma ReloadPredictsAlike(t: Tree, isDisc: seq<bool>, cols: seq<Column>, perm: Perm, o: nat)
    requires Good(t, isDisc)
    ensures Rebuild(Save(t, isDisc), isDisc).Ok?
    ensures PredictNode(Rebuild(Save(t, isDisc), isDisc).value, isDisc, cols, perm, o) == PredictNode(t, isDisc, cols, perm, o)
  {
    SaveRebuild(t, isDisc);
  }
}
