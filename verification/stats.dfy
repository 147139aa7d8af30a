/**
 * The forest's out-of-bag evaluation (src/rforest.cpp, `calcEvalMeasures`
 * in package/src/rforest.h): per observation, the votes of the trees that
 * left it out of their bag; then the confusion matrix, the error rate and
 * the strength, read off those votes.
 */
module Stats {
  import opened Base

  /**
   * What one tree hands over: its out-of-bag set, its 0-based predicted
   * label for each entry of that set, and its gain ratio sums per variable.
   */
  datatype TreeOob = TreeOob(oob: seq<nat>, preds: seq<int>, vis: seq<real>)

  /** The tree's sets fit a training set of `nobs` rows, `nlabels` labels and `nvars` variables. */
  predicate TreeFits(t: TreeOob, nobs: nat, nlabels: nat, nvars: nat)
  {
    && |t.preds| == |t.oob| && |t.vis| == nvars
    && forall i :: 0 <= i < |t.oob| ==> t.oob[i] < nobs && 0 <= t.preds[i] < nlabels
  }

  predicate AllFit(trees: seq<TreeOob>, nobs: nat, nlabels: nat, nvars: nat)
  {
    forall k :: 0 <= k < |trees| ==> TreeFits(trees[k], nobs, nlabels, nvars)
  }

  /** `nobs` rows of `nlabels` counts, and `nobs` totals. */
  predicate Shape(freq: seq<seq<int>>, count: seq<int>, nobs: nat, nlabels: nat)
  {
    |freq| == nobs && |count| == nobs && forall o :: 0 <= o < nobs ==> |freq[o]| == nlabels
  }

  /** No count is negative. */
  predicate NonNegRows(freq: seq<seq<int>>)
  {
    forall o :: 0 <= o < |freq| ==> AllNonNeg(freq[o])
  }

  /** Each row's counts add up to its total. */
  predicate Balanced(freq: seq<seq<int>>, count: seq<int>)
    requires |freq| == |count|
  {
    forall o :: 0 <= o < |freq| ==> Sum(freq[o]) == count[o]
  }

  function ZeroMatrix(rows: nat, cols: nat): (m: seq<seq<int>>)
    ensures |m| == rows && forall o :: 0 <= o < rows ==> m[o] == Zeros(cols)
  {
    seq(rows, _ => Zeros(cols))
  }

  // ---------------------------------------------------------------------------
  // Reference counts

  /** Entries `[0, i)` of a tree's out-of-bag set that are observation `o` predicted as `l`. */
  function Pairs(t: TreeOob, i: nat, o: nat, l: int): nat
    requires i <= |t.oob| == |t.preds|
  {
    if i == 0 then 0
    else Pairs(t, i - 1, o, l) + (if t.oob[i - 1] == o && t.preds[i - 1] == l then 1 else 0)
  }

  /** Entries `[0, i)` of an out-of-bag set that are observation `o`. */
  function Hits(oob: seq<nat>, i: nat, o: nat): nat
    requires i <= |oob|
  {
    if i == 0 then 0 else Hits(oob, i - 1, o) + (if oob[i - 1] == o then 1 else 0)
  }

  /** `Hits` counts the occurrences of `o`. */
  lemma {:induction false} HitsCount(oob: seq<nat>, i: nat, o: nat)
    requires i <= |oob|
    ensures Hits(oob, i, o) == multiset(oob[..i])[o]
  {
    if i > 0 {
      HitsCount(oob, i - 1, o);
      assert oob[..i] == oob[..i - 1] + [oob[i - 1]];
    }
  }

  /** Over the first `k` trees: the out-of-bag entries that are `o` predicted as `l`. */
  function TreePairs(trees: seq<TreeOob>, k: nat, o: nat, l: int): nat
    requires k <= |trees| && forall t :: 0 <= t < |trees| ==> |trees[t].oob| == |trees[t].preds|
  {
    if k == 0 then 0 else TreePairs(trees, k - 1, o, l) + Pairs(trees[k - 1], |trees[k - 1].oob|, o, l)
  }

  /** Over the first `k` trees: how many out-of-bag sets hold `o`, counted with repetition. */
  function OobCount(trees: seq<TreeOob>, k: nat, o: nat): nat
    requires k <= |trees|
  {
    if k == 0 then 0 else OobCount(trees, k - 1, o) + multiset(trees[k - 1].oob)[o]
  }

  // ---------------------------------------------------------------------------
  // collectBasicStatistics

  /**
   * The first `i` entries of one tree's out-of-bag set added to the vote
   * matrix and the out-of-bag counts: each entry gives its observation one
   * vote for the label predicted, and one more out-of-bag appearance.
   */
  function AddEntries(freq: seq<seq<int>>, count: seq<int>, t: TreeOob, i: nat, nobs: nat, nlabels: nat, nvars: nat): (r: (seq<seq<int>>, seq<int>))
    requires Shape(freq, count, nobs, nlabels) && TreeFits(t, nobs, nlabels, nvars) && i <= |t.oob|
    ensures Shape(r.0, r.1, nobs, nlabels)
    ensures forall o, l :: 0 <= o < nobs && 0 <= l < nlabels ==> r.0[o][l] == freq[o][l] + Pairs(t, i, o, l)
    ensures forall o :: 0 <= o < nobs ==> r.1[o] == count[o] + Hits(t.oob, i, o)
    ensures Balanced(freq, count) ==> Balanced(r.0, r.1)
    decreases i
  {
    if i == 0 then (freq, count)
    else
      var p := AddEntries(freq, count, t, i - 1, nobs, nlabels, nvars);
      var o := t.oob[i - 1];
      var l := t.preds[i - 1];
      SumUpdate(p.0[o], l, 1);
      (p.0[o := p.0[o][l := p.0[o][l] + 1]], p.1[o := p.1[o] + 1])
  }

  /**
   * The vote matrix and out-of-bag counts after the first `k` trees, from
   * zero: entry `[o][l]` counts the trees' out-of-bag entries that are `o`
   * predicted as `l`, entry `o` of the counts the sets holding `o`, and each
   * row of votes adds up to its count.
   */
  function Collect(trees: seq<TreeOob>, k: nat, nobs: nat, nlabels: nat, nvars: nat): (r: (seq<seq<int>>, seq<int>))
    requires k <= |trees| && AllFit(trees, nobs, nlabels, nvars)
    ensures Shape(r.0, r.1, nobs, nlabels) && Balanced(r.0, r.1) && NonNegRows(r.0)
    ensures forall o, l :: 0 <= o < nobs && 0 <= l < nlabels ==> r.0[o][l] == TreePairs(trees, k, o, l)
    ensures forall o :: 0 <= o < nobs ==> r.1[o] == OobCount(trees, k, o)
    decreases k
  {
    if k == 0 then
      SumZeros(nlabels);
      (ZeroMatrix(nobs, nlabels), Zeros(nobs))
    else
      var p := Collect(trees, k - 1, nobs, nlabels, nvars);
      var t := trees[k - 1];
      assert TreeFits(t, nobs, nlabels, nvars);
      forall o | 0 <= o < nobs
        ensures Hits(t.oob, |t.oob|, o) == multiset(t.oob)[o]
      {
        HitsCount(t.oob, |t.oob|, o);
        assert t.oob[..|t.oob|] == t.oob;
      }
      AddEntries(p.0, p.1, t, |t.oob|, nobs, nlabels, nvars)
  }

  /** The gain ratio sums of variable `v` over the first `k` trees. */
  function VisTotal(trees: seq<TreeOob>, k: nat, v: nat): real
    requires k <= |trees| && forall t :: 0 <= t < |trees| ==> v < |trees[t].vis|
  {
    if k == 0 then 0.0 else VisTotal(trees, k - 1, v) + trees[k - 1].vis[v]
  }

  /** The per-variable gain ratio sums of the first `k` trees, added up one tree at a time. */
  function SumVis(trees: seq<TreeOob>, k: nat, nvars: nat): (r: seq<real>)
    requires k <= |trees| && forall t :: 0 <= t < |trees| ==> |trees[t].vis| == nvars
    ensures |r| == nvars && forall v :: 0 <= v < nvars ==> r[v] == VisTotal(trees, k, v)
    decreases k
  {
    if k == 0 then seq(nvars, _ => 0.0)
    else
      var p := SumVis(trees, k - 1, nvars);
      seq(nvars, v requires 0 <= v < nvars => p[v] + trees[k - 1].vis[v])
  }

  /**
   * `IGR_VIs_`: the trees' gain ratio sums averaged over the trees; with no
   * tree the division is 0/0, NaN in the source.
   */
  function IgrVis(trees: seq<TreeOob>, nvars: nat): (r: Option<seq<real>>)
    requires forall t :: 0 <= t < |trees| ==> |trees[t].vis| == nvars
    ensures r.Some? <==> |trees| > 0
    ensures r.Some? ==> |r.value| == nvars
    ensures r.Some? ==> forall v :: 0 <= v < nvars ==> r.value[v] * |trees| as real == VisTotal(trees, |trees|, v)
  {
    if |trees| == 0 then None
    else
      var total := SumVis(trees, |trees|, nvars);
      Some(seq(nvars, v requires 0 <= v < nvars => total[v] / |trees| as real))
  }

  // ---------------------------------------------------------------------------
  // calcOOBConfusionErrorRateAndStrength: one observation

  /**
   * The scan for `max_j` over labels `[0, n)`: the first label other than
   * `a` with the most votes, with its votes; `(-1, -1)` while there is none.
   */
  function MaxOtherUpTo(votes: seq<int>, a: nat, n: nat): (r: (int, int))
    requires a < |votes| && AllNonNeg(votes) && n <= |votes|
    ensures r.0 == -1 <==> n == 0 || (n == 1 && a == 0)
    ensures r.0 != -1 ==> 0 <= r.0 < n && r.0 != a && r.1 == votes[r.0]
    ensures r.0 != -1 ==> forall l :: 0 <= l < n && l != a ==> votes[l] <= r.1
    ensures r.0 != -1 ==> forall l :: 0 <= l < r.0 && l != a ==> votes[l] < r.1
    ensures r.0 == -1 ==> r.1 == -1
    decreases n
  {
    if n == 0 then (-1, -1)
    else
      var p := MaxOtherUpTo(votes, a, n - 1);
      var l := n - 1;
      if l != a && votes[l] > p.1 then (l, votes[l]) else p
  }

  /**
   * `max_j`: the first label other than the actual label `a` with the most
   * votes; -1 exactly when there is no other label.
   */
  function MaxOther(votes: seq<int>, a: nat): (j: int)
    requires a < |votes| && AllNonNeg(votes)
    ensures j == -1 <==> |votes| == 1
    ensures j != -1 ==> 0 <= j < |votes| && j != a
    ensures j != -1 ==> forall l :: 0 <= l < |votes| && l != a ==> votes[l] <= votes[j]
    ensures j != -1 ==> forall l :: 0 <= l < j && l != a ==> votes[l] < votes[j]
  {
    MaxOtherUpTo(votes, a, |votes|).0
  }

  /**
   * The margin of an observation counted `count` times: the actual label's
   * votes less those of `max_j`, over `count`. With a single label there is
   * no `max_j` and the source reads before the vote row; the model gives
   * `None`.
   */
  function Margin(votes: seq<int>, count: nat, a: nat): (m: Option<real>)
    requires a < |votes| && AllNonNeg(votes) && count > 0
    ensures m.Some? <==> |votes| > 1
    ensures m.Some? ==> m.value * count as real == (votes[a] - votes[MaxOther(votes, a)]) as real
  {
    var j := MaxOther(votes, a);
    if j == -1 then None else Some((votes[a] - votes[j]) as real / count as real)
  }

  /** When the votes add up to the count, the margin lies in [-1, 1]. */
  lemma MarginBounds(votes: seq<int>, count: nat, a: nat)
    requires a < |votes| && AllNonNeg(votes) && count > 0 && Sum(votes) == count
    ensures Margin(votes, count, a).Some? ==> -1.0 <= Margin(votes, count, a).value <= 1.0
  {
    if |votes| > 1 {
      var j := MaxOther(votes, a);
      SumTwo(votes, a, j);
      var d := (votes[a] - votes[j]) as real;
      var c := count as real;
      assert -c <= d <= c;
      Fraction(d, c);
    }
  }

  lemma Fraction(d: real, c: real)
    requires c > 0.0 && -c <= d <= c
    ensures -1.0 <= d / c <= 1.0
  {
  }

  /** A quotient by a positive number has the sign of the dividend. */
  lemma QuotientSign(d: real, c: real)
    requires c > 0.0
    ensures d / c > 0.0 <==> d > 0.0
    ensures d / c >= 0.0 <==> d >= 0.0
  {
  }

  /**
   * A positive margin means the majority vote is right, and a right
   * majority vote has a margin of at least zero.
   */
  lemma MarginSign(votes: seq<int>, count: nat, a: nat)
    requires a < |votes| && AllNonNeg(votes) && count > 0
    ensures Margin(votes, count, a).Some? && Margin(votes, count, a).value > 0.0 ==> ArgMax(votes) == a
    ensures Margin(votes, count, a).Some? && ArgMax(votes) == a ==> Margin(votes, count, a).value >= 0.0
  {
    if |votes| > 1 {
      var j := MaxOther(votes, a);
      var k := ArgMax(votes);
      var d := votes[a] - votes[j];
      assert Margin(votes, count, a).value == d as real / count as real;
      QuotientSign(d as real, count as real);
      if k != a {
        assert votes[k] <= votes[j];
      }
    }
  }

  // ---------------------------------------------------------------------------
  // calcOOBConfusionErrorRateAndStrength: all observations

  /** An `n` by `n` matrix. */
  predicate Square(m: seq<seq<int>>, n: nat)
  {
    |m| == n && forall p :: 0 <= p < n ==> |m[p]| == n
  }

  /**
   * What the confusion pass reads: `nlabels` votes per observation, none
   * negative, adding up to its out-of-bag count, and a label `1..nlabels`
   * per observation.
   */
  predicate VoteInputs(freq: seq<seq<int>>, count: seq<int>, labels: seq<int>, nlabels: nat)
  {
    && nlabels >= 1 && Shape(freq, count, |count|, nlabels) && |labels| == |count|
    && Balanced(freq, count) && NonNegRows(freq) && AllNonNeg(count)
    && forall o :: 0 <= o < |labels| ==> 1 <= labels[o] <= nlabels
  }

  /**
   * What a counted observation brings to the pass: its majority vote `p`,
   * its 0-based label `a` and its margin `m`.
   */
  datatype Visit = Visit(p: nat, a: nat, m: Option<real>)

  /** Both are labels; the margin exists exactly when there is more than one label, and lies in [-1, 1]. */
  predicate VisitOk(v: Visit, nlabels: nat)
  {
    && v.p < nlabels && v.a < nlabels
    && (v.m.Some? <==> nlabels > 1)
    && (v.m.Some? ==> -1.0 <= v.m.value <= 1.0)
  }

  predicate VisitsOk(vs: seq<Option<Visit>>, nlabels: nat)
  {
    forall o :: 0 <= o < |vs| && vs[o].Some? ==> VisitOk(vs[o].value, nlabels)
  }

  /**
   * Observation `o`: nothing when no tree left it out of its bag; else the
   * first label with the most votes, the observation's label, and its
   * margin, which is positive only when the majority vote is right.
   */
  function VisitOf(freq: seq<seq<int>>, count: seq<int>, labels: seq<int>, nlabels: nat, o: nat): (v: Option<Visit>)
    requires VoteInputs(freq, count, labels, nlabels) && o < |count|
    ensures v.None? <==> count[o] == 0
    ensures v.Some? ==> VisitOk(v.value, nlabels) && v.value.a + 1 == labels[o]
    ensures v.Some? ==> v.value.p == ArgMax(freq[o]) && v.value.m == Margin(freq[o], count[o], v.value.a)
  {
    if count[o] == 0 then None
    else
      var votes := freq[o];
      assert AllNonNeg(votes) && Sum(votes) == count[o] && |votes| == nlabels;
      var a := labels[o] - 1;
      MarginBounds(votes, count[o], a);
      Some(Visit(ArgMax(votes), a, Margin(votes, count[o], a)))
  }

  /**
   * The visits of the first `|vs|` observations: one exactly for each
   * observation some tree left out of its bag, with its label, its
   * majority vote and its margin.
   */
  predicate VisitsFor(vs: seq<Option<Visit>>, freq: seq<seq<int>>, count: seq<int>, labels: seq<int>, nlabels: nat)
    requires VoteInputs(freq, count, labels, nlabels) && |vs| <= |count|
  {
    && VisitsOk(vs, nlabels)
    && forall o :: 0 <= o < |vs| ==>
         && (vs[o].Some? <==> count[o] != 0)
         && (vs[o].Some? ==> vs[o].value.a + 1 == labels[o] && vs[o].value.p == ArgMax(freq[o]))
         && (vs[o].Some? ==> vs[o].value.m == Margin(freq[o], count[o], labels[o] - 1))
  }

  /** The visits of observations `[0, k)`, in observation order. */
  function Visits(freq: seq<seq<int>>, count: seq<int>, labels: seq<int>, nlabels: nat, k: nat): (vs: seq<Option<Visit>>)
    requires VoteInputs(freq, count, labels, nlabels) && k <= |count|
    ensures |vs| == k && forall o :: 0 <= o < k ==> vs[o] == VisitOf(freq, count, labels, nlabels, o)
    decreases k
  {
    if k == 0 then []
    else
      var vs := Visits(freq, count, labels, nlabels, k - 1);
      var r := vs + [VisitOf(freq, count, labels, nlabels, k - 1)];
      assert forall o :: 0 <= o < k - 1 ==> r[o] == vs[o];
      r
  }

  /** `Visits` lists exactly the visits of the observations. */
  lemma VisitsAreFor(freq: seq<seq<int>>, count: seq<int>, labels: seq<int>, nlabels: nat, k: nat)
    requires VoteInputs(freq, count, labels, nlabels) && k <= |count|
    ensures VisitsFor(Visits(freq, count, labels, nlabels, k), freq, count, labels, nlabels)
  {
    var vs := Visits(freq, count, labels, nlabels, k);
    forall o | 0 <= o < k
      ensures vs[o] == VisitOf(freq, count, labels, nlabels, o)
    {
    }
  }

  // Reference counts over the first `k` visits.

  /** The observations counted. */
  function Seen(vs: seq<Option<Visit>>, k: nat): nat
    requires k <= |vs|
  {
    if k == 0 then 0 else Seen(vs, k - 1) + (if vs[k - 1].Some? then 1 else 0)
  }

  /** Those whose majority vote is not their label. */
  function Wrong(vs: seq<Option<Visit>>, k: nat): nat
    requires k <= |vs|
  {
    if k == 0 then 0 else Wrong(vs, k - 1) + (if vs[k - 1].Some? && vs[k - 1].value.p != vs[k - 1].value.a then 1 else 0)
  }

  /** Those voted `p` whose label is `a`. */
  function Cell(vs: seq<Option<Visit>>, k: nat, p: nat, a: nat): nat
    requires k <= |vs|
  {
    if k == 0 then 0 else Cell(vs, k - 1, p, a) + (if vs[k - 1].Some? && vs[k - 1].value.p == p && vs[k - 1].value.a == a then 1 else 0)
  }

  /** Those whose label is `a`. */
  function LabelSeen(vs: seq<Option<Visit>>, k: nat, a: nat): nat
    requires k <= |vs|
  {
    if k == 0 then 0 else LabelSeen(vs, k - 1, a) + (if vs[k - 1].Some? && vs[k - 1].value.a == a then 1 else 0)
  }

  /** Their margins, added up (an undefined margin adds nothing). */
  function MarginSum(vs: seq<Option<Visit>>, k: nat): real
    requires k <= |vs|
  {
    if k == 0 then 0.0
    else MarginSum(vs, k - 1) + (if vs[k - 1].Some? && vs[k - 1].value.m.Some? then vs[k - 1].value.m.value else 0.0)
  }

  /** The squares of their margins, added up. */
  function MarginSquareSum(vs: seq<Option<Visit>>, k: nat): real
    requires k <= |vs|
  {
    if k == 0 then 0.0
    else
      var m := if vs[k - 1].Some? && vs[k - 1].value.m.Some? then vs[k - 1].value.m.value else 0.0;
      MarginSquareSum(vs, k - 1) + Sq(m)
  }

  /**
   * The running sums of the confusion pass: `cells[p][a]` counts
   * observations voted `p` whose label is `a`, `totals[a]` those whose label
   * is `a`, then the out-of-bag observations, the wrong votes, and the sums
   * of the margins and of their squares (`None` once a margin is undefined).
   */
  datatype Conf = Conf(cells: seq<seq<int>>, totals: seq<int>, oobNum: nat, errorNum: nat, sumMr: Option<real>, sumMr2: Option<real>)

  function Sq(x: real): real
  {
    x * x
  }

  lemma SquareBound(x: real)
    requires -1.0 <= x <= 1.0
    ensures 0.0 <= x * x <= 1.0
  {
    if x >= 0.0 {
      assert x * x <= x * 1.0;
    } else {
      assert x * x <= (-x) * 1.0;
    }
  }

  /** Column `a` of the first `n` rows, added up. */
  function ColSum(cells: seq<seq<int>>, a: nat, n: nat): int
    requires n <= |cells| && forall p :: 0 <= p < |cells| ==> a < |cells[p]|
  {
    if n == 0 then 0 else ColSum(cells, a, n - 1) + cells[n - 1][a]
  }

  /** The diagonal of the first `n` rows, added up. */
  function Trace(cells: seq<seq<int>>, n: nat): int
    requires n <= |cells| && forall p :: 0 <= p < |cells| ==> n <= |cells[p]|
  {
    if n == 0 then 0 else Trace(cells, n - 1) + cells[n - 1][n - 1]
  }

  lemma {:induction false} ColSumUpdate(cells: seq<seq<int>>, p: nat, a: nat, b: nat, n: nat)
    requires Square(cells, |cells|) && p < |cells| && a < |cells| && b < |cells| && n <= |cells|
    ensures ColSum(cells[p := cells[p][a := cells[p][a] + 1]], b, n) == ColSum(cells, b, n) + (if b == a && p < n then 1 else 0)
  {
    if n > 0 {
      ColSumUpdate(cells, p, a, b, n - 1);
    }
  }

  lemma {:induction false} TraceUpdate(cells: seq<seq<int>>, p: nat, a: nat, n: nat)
    requires Square(cells, |cells|) && p < |cells| && a < |cells| && n <= |cells|
    ensures Trace(cells[p := cells[p][a := cells[p][a] + 1]], n) == Trace(cells, n) + (if p == a && p < n then 1 else 0)
  {
    if n > 0 {
      TraceUpdate(cells, p, a, n - 1);
    }
  }

  /**
   * The shape of the running sums, and the bounds the margins keep: each
   * margin lies in [-1, 1], so their sum lies within the number of
   * observations counted, and the sum of their squares between 0 and that
   * number.
   */
  predicate ConfOk(c: Conf, nlabels: nat)
  {
    && Square(c.cells, nlabels) && NonNegRows(c.cells) && |c.totals| == nlabels
    && (c.sumMr.Some? <==> c.sumMr2.Some?)
    && (c.sumMr.Some? ==> -(c.oobNum as real) <= c.sumMr.value <= c.oobNum as real)
    && (c.sumMr2.Some? ==> 0.0 <= c.sumMr2.value <= c.oobNum as real)
  }

  /** The columns of the first `n` rows add up to the totals. */
  predicate ColumnsAddUp(cells: seq<seq<int>>, totals: seq<int>, n: nat)
    requires Square(cells, n) && |totals| == n
  {
    forall a :: 0 <= a < n ==> ColSum(cells, a, n) == totals[a]
  }

  /**
   * The pass over the first `k` visits. It counts the observations visited
   * and the wrong votes among them, and cell `[p][a]` the observations
   * voted `p` with label `a`; the class totals add up to the observations
   * counted, each label's column to its total, and the diagonal with the
   * wrong votes again to every observation counted. The margin sums are
   * those of the visits, and undefined exactly when some observation was
   * counted with a single label.
   */
  function Tally(vs: seq<Option<Visit>>, nlabels: nat, k: nat): (c: Conf)
    requires nlabels >= 1 && VisitsOk(vs, nlabels) && k <= |vs|
    ensures ConfOk(c, nlabels)
    ensures c.oobNum == Seen(vs, k) && c.errorNum == Wrong(vs, k)
    ensures forall p, a :: 0 <= p < nlabels && 0 <= a < nlabels ==> c.cells[p][a] == Cell(vs, k, p, a)
    ensures forall a :: 0 <= a < nlabels ==> c.totals[a] == LabelSeen(vs, k, a)
    ensures Sum(c.totals) == c.oobNum && ColumnsAddUp(c.cells, c.totals, nlabels)
    ensures Trace(c.cells, nlabels) + c.errorNum == c.oobNum
    ensures c.sumMr.Some? <==> nlabels > 1 || c.oobNum == 0
    ensures c.sumMr.Some? ==> c.sumMr.value == MarginSum(vs, k) && c.sumMr2.value == MarginSquareSum(vs, k)
    decreases k
  {
    if k == 0 then
      SumZeros(nlabels);
      ZeroColumns(nlabels, nlabels);
      Conf(ZeroMatrix(nlabels, nlabels), Zeros(nlabels), 0, 0, Some(0.0), Some(0.0))
    else
      var c := Tally(vs, nlabels, k - 1);
      match vs[k - 1]
      case None => c
      case Some(v) =>
        assert VisitOk(v, nlabels);
        CountedOk(c, nlabels, v);
        Counted(c, v)
  }

  /**
   * One counted visit: one more in cell `[p][a]`, in total `a` and in the
   * observations counted, one more wrong vote when `p != a`, and the margin
   * added to the sums.
   */
  function Counted(c: Conf, v: Visit): (r: Conf)
    requires v.p < |c.cells| && v.a < |c.cells[v.p]| && v.a < |c.totals|
    ensures r.oobNum == c.oobNum + 1 && r.errorNum == c.errorNum + (if v.p == v.a then 0 else 1)
    ensures |r.cells| == |c.cells| && |r.totals| == |c.totals|
    ensures forall q, b :: 0 <= q < |c.cells| && 0 <= b < |c.cells[q]| ==>
      |r.cells[q]| == |c.cells[q]| && r.cells[q][b] == c.cells[q][b] + (if q == v.p && b == v.a then 1 else 0)
    ensures forall b :: 0 <= b < |c.totals| ==> r.totals[b] == c.totals[b] + (if b == v.a then 1 else 0)
    ensures r.sumMr.Some? <==> c.sumMr.Some? && v.m.Some?
    ensures r.sumMr.Some? ==> r.sumMr.value == c.sumMr.value + v.m.value
    ensures r.sumMr2.Some? <==> c.sumMr2.Some? && v.m.Some?
    ensures r.sumMr2.Some? ==> r.sumMr2.value == c.sumMr2.value + Sq(v.m.value)
  {
    var p, a, m := v.p, v.a, v.m;
    Conf(c.cells[p := c.cells[p][a := c.cells[p][a] + 1]], c.totals[a := c.totals[a] + 1], c.oobNum + 1,
         if p == a then c.errorNum else c.errorNum + 1,
         if c.sumMr.Some? && m.Some? then Some(c.sumMr.value + m.value) else None,
         if c.sumMr2.Some? && m.Some? then Some(c.sumMr2.value + Sq(m.value)) else None)
  }

  /** A counted visit keeps the sums' shape and bounds, and the columns, totals and diagonal in step. */
  lemma CountedOk(c: Conf, nlabels: nat, v: Visit)
    requires ConfOk(c, nlabels) && VisitOk(v, nlabels)
    ensures ConfOk(Counted(c, v), nlabels)
    ensures Sum(Counted(c, v).totals) == Sum(c.totals) + 1
    ensures ColumnsAddUp(c.cells, c.totals, nlabels) ==> ColumnsAddUp(Counted(c, v).cells, Counted(c, v).totals, nlabels)
    ensures Trace(Counted(c, v).cells, nlabels) == Trace(c.cells, nlabels) + (if v.p == v.a then 1 else 0)
  {
    SumUpdate(c.totals, v.a, 1);
    ColumnsUpdate(c.cells, c.totals, v.p, v.a, nlabels);
    TraceUpdate(c.cells, v.p, v.a, nlabels);
    if v.m.Some? && c.sumMr.Some? {
      MarginAdd(c.sumMr.value, c.sumMr2.value, c.oobNum as real, v.m.value);
    }
  }

  /** One more margin in [-1, 1] keeps the sums within one more observation. */
  lemma MarginAdd(s: real, s2: real, n: real, m: real)
    requires -n <= s <= n && 0.0 <= s2 <= n && -1.0 <= m <= 1.0
    ensures -(n + 1.0) <= s + m <= n + 1.0 && 0.0 <= s2 + Sq(m) <= n + 1.0
  {
    SquareBound(m);
  }

  lemma ColumnsUpdate(cells: seq<seq<int>>, totals: seq<int>, p: nat, a: nat, n: nat)
    requires Square(cells, n) && |totals| == n && p < n && a < n
    ensures ColumnsAddUp(cells, totals, n) ==> ColumnsAddUp(cells[p := cells[p][a := cells[p][a] + 1]], totals[a := totals[a] + 1], n)
  {
    forall b | 0 <= b < n
      ensures ColSum(cells[p := cells[p][a := cells[p][a] + 1]], b, n) == ColSum(cells, b, n) + (if b == a then 1 else 0)
    {
      ColSumUpdate(cells, p, a, b, n);
    }
  }

  lemma {:induction false} ZeroColumns(n: nat, k: nat)
    requires k <= n
    ensures forall a :: 0 <= a < n ==> ColSum(ZeroMatrix(n, n), a, k) == 0
    ensures Trace(ZeroMatrix(n, n), k) == 0
  {
    if k > 0 {
      ZeroColumns(n, k - 1);
    }
  }

  // ---------------------------------------------------------------------------
  // calcEvalMeasures

  /**
   * The forest's out-of-bag measures: the vote matrix and out-of-bag
   * counts, each observation's 0-based majority vote (`None` for NA when
   * no tree left it out) and `max_j`, the confusion matrix with the class
   * error row beside it, the error rate, the strength, the mean squared
   * margin and the averaged gain ratio sums.
   */
  datatype Eval = Eval(freq: seq<seq<int>>, count: seq<int>, predLabels: seq<Option<nat>>, maxJ: seq<int>,
                       cells: seq<seq<int>>, classError: seq<Option<real>>,
                       errorRate: Option<real>, strength: Option<real>, emr2: Option<real>,
                       igrVis: Option<seq<real>>)

  // Reference counts over the first `k` majority votes, against the labels.

  /** The observations voted for. */
  function Voted(preds: seq<Option<nat>>, k: nat): nat
    requires k <= |preds|
  {
    if k == 0 then 0 else Voted(preds, k - 1) + (if preds[k - 1].Some? then 1 else 0)
  }

  /** Those whose majority vote misses their label. */
  function Misvoted(preds: seq<Option<nat>>, labels: seq<int>, k: nat): nat
    requires k <= |preds| == |labels|
  {
    if k == 0 then 0
    else Misvoted(preds, labels, k - 1) + (if preds[k - 1].Some? && preds[k - 1].value + 1 != labels[k - 1] then 1 else 0)
  }

  /** Those voted `p` whose label is `a + 1`. */
  function VotedAs(preds: seq<Option<nat>>, labels: seq<int>, k: nat, p: nat, a: nat): nat
    requires k <= |preds| == |labels|
  {
    if k == 0 then 0
    else VotedAs(preds, labels, k - 1, p, a) + (if preds[k - 1] == Some(p) && labels[k - 1] == a + 1 then 1 else 0)
  }

  /** Those voted for whose label is `a + 1`. */
  function VotedLabel(preds: seq<Option<nat>>, labels: seq<int>, k: nat, a: nat): nat
    requires k <= |preds| == |labels|
  {
    if k == 0 then 0
    else VotedLabel(preds, labels, k - 1, a) + (if preds[k - 1].Some? && labels[k - 1] == a + 1 then 1 else 0)
  }

  /** The majority votes of a list of visits. */
  function PredsOf(vs: seq<Option<Visit>>): (preds: seq<Option<nat>>)
    ensures |preds| == |vs|
    ensures forall o :: 0 <= o < |vs| ==> (preds[o].Some? <==> vs[o].Some?)
    ensures forall o :: 0 <= o < |vs| && vs[o].Some? ==> preds[o].value == vs[o].value.p
  {
    seq(|vs|, o requires 0 <= o < |vs| => if vs[o].Some? then Some(vs[o].value.p) else None)
  }

  /** The counts over visits are the counts over their majority votes and the labels. */
  lemma {:induction false} VisitsAgree(vs: seq<Option<Visit>>, labels: seq<int>, k: nat, p: nat, a: nat)
    requires |vs| == |labels| && k <= |vs|
    requires forall o :: 0 <= o < |vs| && vs[o].Some? ==> vs[o].value.a + 1 == labels[o]
    ensures Seen(vs, k) == Voted(PredsOf(vs), k)
    ensures Wrong(vs, k) == Misvoted(PredsOf(vs), labels, k)
    ensures Cell(vs, k, p, a) == VotedAs(PredsOf(vs), labels, k, p, a)
    ensures LabelSeen(vs, k, a) == VotedLabel(PredsOf(vs), labels, k, a)
  {
    if k > 0 {
      VisitsAgree(vs, labels, k - 1, p, a);
    }
  }

  /** No more observations are voted `p` with label `a + 1` than have label `a + 1`. */
  lemma {:induction false} VotedAsWithin(preds: seq<Option<nat>>, labels: seq<int>, k: nat, p: nat, a: nat)
    requires k <= |preds| == |labels|
    ensures VotedAs(preds, labels, k, p, a) <= VotedLabel(preds, labels, k, a)
  {
    if k > 0 {
      VotedAsWithin(preds, labels, k - 1, p, a);
    }
  }

  /** No more visits are voted `p` with label `a` than have label `a`. */
  lemma {:induction false} CellWithin(vs: seq<Option<Visit>>, k: nat, p: nat, a: nat)
    requires k <= |vs|
    ensures Cell(vs, k, p, a) <= LabelSeen(vs, k, a)
  {
    if k > 0 {
      CellWithin(vs, k - 1, p, a);
    }
  }

  lemma DiagWithin(vs: seq<Option<Visit>>, k: nat, nlabels: nat)
    requires k <= |vs|
    ensures forall a :: 0 <= a < nlabels ==> Cell(vs, k, a, a) <= LabelSeen(vs, k, a)
  {
    forall a | 0 <= a < nlabels
      ensures Cell(vs, k, a, a) <= LabelSeen(vs, k, a)
    {
      CellWithin(vs, k, a, a);
    }
  }

  /** No more observations are voted wrong than are voted for. */
  lemma {:induction false} MisvotedWithin(preds: seq<Option<nat>>, labels: seq<int>, k: nat)
    requires k <= |preds| == |labels|
    ensures Misvoted(preds, labels, k) <= Voted(preds, k)
  {
    if k > 0 {
      MisvotedWithin(preds, labels, k - 1);
    }
  }

  /** The margins of the observations among `[0, k)` some tree left out, added up, when there is more than one label. */
  function MarginTotal(freq: seq<seq<int>>, count: seq<int>, labels: seq<int>, nlabels: nat, k: nat): real
    requires VoteInputs(freq, count, labels, nlabels) && k <= |count| && nlabels > 1
  {
    if k == 0 then 0.0
    else
      var o := k - 1;
      MarginTotal(freq, count, labels, nlabels, k - 1)
        + (if count[o] != 0 then Margin(freq[o], count[o], labels[o] - 1).value else 0.0)
  }

  /** The squares of those margins, added up. */
  function MarginSquares(freq: seq<seq<int>>, count: seq<int>, labels: seq<int>, nlabels: nat, k: nat): real
    requires VoteInputs(freq, count, labels, nlabels) && k <= |count| && nlabels > 1
  {
    if k == 0 then 0.0
    else
      var o := k - 1;
      MarginSquares(freq, count, labels, nlabels, k - 1)
        + (if count[o] != 0 then Sq(Margin(freq[o], count[o], labels[o] - 1).value) else 0.0)
  }

  lemma {:induction false} MarginsAgree(vs: seq<Option<Visit>>, freq: seq<seq<int>>, count: seq<int>, labels: seq<int>, nlabels: nat, k: nat)
    requires VoteInputs(freq, count, labels, nlabels) && |vs| == |count| && k <= |count| && nlabels > 1
    requires VisitsFor(vs, freq, count, labels, nlabels)
    ensures MarginSum(vs, k) == MarginTotal(freq, count, labels, nlabels, k)
  {
    if k > 0 {
      MarginsAgree(vs, freq, count, labels, nlabels, k - 1);
    }
  }

  lemma {:induction false} SquaresAgree(vs: seq<Option<Visit>>, freq: seq<seq<int>>, count: seq<int>, labels: seq<int>, nlabels: nat, k: nat)
    requires VoteInputs(freq, count, labels, nlabels) && |vs| == |count| && k <= |count| && nlabels > 1
    requires VisitsFor(vs, freq, count, labels, nlabels)
    ensures MarginSquareSum(vs, k) == MarginSquares(freq, count, labels, nlabels, k)
  {
    if k > 0 {
      SquaresAgree(vs, freq, count, labels, nlabels, k - 1);
    }
  }

  /**
   * The class error of label `a`: the share of the observations labelled
   * `a + 1` that were voted otherwise; 0/0, NaN in the source, when none was
   * counted.
   */
  function ClassError(diag: nat, total: nat): (r: Option<real>)
    requires diag <= total
    ensures r.Some? <==> total > 0
    ensures r.Some? ==> r.value * total as real == (total - diag) as real && 0.0 <= r.value <= 1.0
  {
    if total == 0 then None
    else
      Fraction((total - diag) as real, total as real);
      Some(1.0 - diag as real / total as real)
  }

  /** The class error of every label, beside the confusion matrix. */
  function ClassErrors(cells: seq<seq<int>>, totals: seq<int>, nlabels: nat): (r: seq<Option<real>>)
    requires Square(cells, nlabels) && |totals| == nlabels
    requires forall a :: 0 <= a < nlabels ==> 0 <= cells[a][a] <= totals[a]
    ensures |r| == nlabels
    ensures forall a :: 0 <= a < nlabels ==> r[a] == ClassError(cells[a][a], totals[a])
  {
    seq(nlabels, a requires 0 <= a < nlabels => ClassError(cells[a][a], totals[a]))
  }

  /** `sum / n`, NaN in the source when `n` is 0. */
  function Mean(sum: Option<real>, n: nat): (r: Option<real>)
    ensures r.Some? <==> sum.Some? && n > 0
    ensures r.Some? ==> r.value * n as real == sum.value
  {
    if sum.None? || n == 0 then None else Some(sum.value / n as real)
  }

  /** A mean of values within [-1, 1] is within [-1, 1]. */
  lemma MeanWithin(sum: Option<real>, n: nat)
    requires sum.Some? ==> -(n as real) <= sum.value <= n as real
    ensures Mean(sum, n).Some? ==> -1.0 <= Mean(sum, n).value <= 1.0
  {
    if Mean(sum, n).Some? {
      Fraction(sum.value, n as real);
    }
  }

  /** A mean of values within [0, 1] is within [0, 1]. */
  lemma MeanUnit(sum: Option<real>, n: nat)
    requires sum.Some? ==> 0.0 <= sum.value <= n as real
    ensures Mean(sum, n).Some? ==> 0.0 <= Mean(sum, n).value <= 1.0
  {
    if Mean(sum, n).Some? {
      Fraction(sum.value, n as real);
    }
  }

  /** A share of a count is within [0, 1]. */
  lemma RateUnit(num: nat, den: nat)
    requires num <= den
    ensures Rate(num, den).Some? ==> 0.0 <= Rate(num, den).value <= 1.0
  {
    if den > 0 {
      Fraction(num as real, den as real);
    }
  }

  /** Every count over the visits, as a count over their majority votes and the labels. */
  lemma AllAgree(vs: seq<Option<Visit>>, labels: seq<int>, nlabels: nat)
    requires |vs| == |labels|
    requires forall o :: 0 <= o < |vs| && vs[o].Some? ==> vs[o].value.a + 1 == labels[o]
    ensures Seen(vs, |vs|) == Voted(PredsOf(vs), |vs|)
    ensures Wrong(vs, |vs|) == Misvoted(PredsOf(vs), labels, |vs|)
    ensures forall p, a :: 0 <= p < nlabels && 0 <= a < nlabels ==> Cell(vs, |vs|, p, a) == VotedAs(PredsOf(vs), labels, |vs|, p, a)
    ensures forall a :: 0 <= a < nlabels ==> LabelSeen(vs, |vs|, a) == VotedLabel(PredsOf(vs), labels, |vs|, a)
  {
    VisitsAgree(vs, labels, |vs|, 0, 0);
    forall p, a | 0 <= p < nlabels && 0 <= a < nlabels
      ensures Cell(vs, |vs|, p, a) == VotedAs(PredsOf(vs), labels, |vs|, p, a)
    {
      VisitsAgree(vs, labels, |vs|, p, a);
    }
    forall a | 0 <= a < nlabels
      ensures LabelSeen(vs, |vs|, a) == VotedLabel(PredsOf(vs), labels, |vs|, a)
    {
      VisitsAgree(vs, labels, |vs|, a, a);
    }
  }

  /** The confusion matrix, the class errors, the error rate, the strength and the mean squared margin. */
  datatype ConfOut = ConfOut(cells: seq<seq<int>>, classError: seq<Option<real>>,
                             errorRate: Option<real>, strength: Option<real>, emr2: Option<real>)

  /**
   * The confusion pass, read off: the matrix counts, for each vote `p` and
   * label `a + 1`, the observations voted `p` with that label; each label's
   * class error is the share of its observations voted otherwise, undefined
   * exactly when none of them was voted for; the error rate is the share of
   * the observations voted for whose vote misses their label, undefined
   * exactly when none was. With more than one label the strength is their
   * mean margin, in [-1, 1], and the mean squared margin the mean of the
   * squares, in [0, 1]; both are undefined when no observation was voted
   * for, and when one was with a single label.
   */
  function Confusion(vs: seq<Option<Visit>>, labels: seq<int>, nlabels: nat): (r: ConfOut)
    requires nlabels >= 1 && VisitsOk(vs, nlabels) && |vs| == |labels|
    requires forall o :: 0 <= o < |vs| && vs[o].Some? ==> vs[o].value.a + 1 == labels[o]
    ensures Square(r.cells, nlabels) && |r.classError| == nlabels
    ensures forall p, a :: 0 <= p < nlabels && 0 <= a < nlabels ==> r.cells[p][a] == VotedAs(PredsOf(vs), labels, |vs|, p, a)
    ensures forall a :: 0 <= a < nlabels ==>
      0 <= r.cells[a][a] <= VotedLabel(PredsOf(vs), labels, |vs|, a) &&
      r.classError[a] == ClassError(r.cells[a][a], VotedLabel(PredsOf(vs), labels, |vs|, a))
    ensures r.errorRate == Rate(Misvoted(PredsOf(vs), labels, |vs|), Voted(PredsOf(vs), |vs|))
    ensures r.errorRate.Some? ==> 0.0 <= r.errorRate.value <= 1.0
    ensures (r.strength.Some? <==> Voted(PredsOf(vs), |vs|) > 0 && nlabels > 1) && (r.emr2.Some? <==> r.strength.Some?)
    ensures r.strength.Some? ==> r.strength == Mean(Some(MarginSum(vs, |vs|)), Voted(PredsOf(vs), |vs|))
    ensures r.strength.Some? ==> -1.0 <= r.strength.value <= 1.0
    ensures r.emr2.Some? ==> r.emr2 == Mean(Some(MarginSquareSum(vs, |vs|)), Voted(PredsOf(vs), |vs|))
    ensures r.emr2.Some? ==> 0.0 <= r.emr2.value <= 1.0
  {
    var n := |vs|;
    var c := Tally(vs, nlabels, n);
    AllAgree(vs, labels, nlabels);
    MisvotedWithin(PredsOf(vs), labels, n);
    RateUnit(c.errorNum, c.oobNum);
    MeanWithin(c.sumMr, c.oobNum);
    MeanUnit(c.sumMr2, c.oobNum);
    DiagWithin(vs, n, nlabels);
    ConfOut(c.cells, ClassErrors(c.cells, c.totals, nlabels), Rate(c.errorNum, c.oobNum), Mean(c.sumMr, c.oobNum), Mean(c.sumMr2, c.oobNum))
  }

  /** `max_j` of every observation, -1 for one no tree left out of its bag. */
  function MaxJs(freq: seq<seq<int>>, count: seq<int>, labels: seq<int>, nlabels: nat): (r: seq<int>)
    requires VoteInputs(freq, count, labels, nlabels)
    ensures |r| == |count|
    ensures forall o :: 0 <= o < |count| ==> (r[o] == -1 <==> count[o] == 0 || nlabels == 1)
    ensures forall o :: 0 <= o < |count| && r[o] != -1 ==> r[o] == MaxOther(freq[o], labels[o] - 1)
  {
    seq(|count|, o requires 0 <= o < |count| => if count[o] == 0 then -1 else MaxOther(freq[o], labels[o] - 1))
  }

  /**
   * The measures read off a vote matrix and its out-of-bag counts. An
   * observation gets a majority vote exactly when some tree left it out of
   * its bag, and a `max_j` other than -1 exactly when, besides, there is
   * another label. The confusion matrix, the class errors, the error rate,
   * the strength and the mean squared margin are those `Confusion` states,
   * with each observation's margin taken from its votes.
   */
  function Summarise(freq: seq<seq<int>>, count: seq<int>, labels: seq<int>, nlabels: nat, vs: seq<Option<Visit>>,
                     igrVis: Option<seq<real>>): (r: Eval)
    requires VoteInputs(freq, count, labels, nlabels) && |vs| == |count| && VisitsFor(vs, freq, count, labels, nlabels)
    ensures r.freq == freq && r.count == count && r.igrVis == igrVis
    ensures |r.predLabels| == |r.maxJ| == |labels|
    ensures forall o :: 0 <= o < |labels| ==> (r.predLabels[o].Some? <==> count[o] != 0)
    ensures forall o :: 0 <= o < |labels| && r.predLabels[o].Some? ==> r.predLabels[o].value == ArgMax(freq[o])
    ensures forall o :: 0 <= o < |labels| ==> (r.maxJ[o] == -1 <==> count[o] == 0 || nlabels == 1)
    ensures forall o :: 0 <= o < |labels| && r.maxJ[o] != -1 ==> r.maxJ[o] == MaxOther(freq[o], labels[o] - 1)
    ensures Square(r.cells, nlabels) && |r.classError| == nlabels
    ensures forall p, a :: 0 <= p < nlabels && 0 <= a < nlabels ==> r.cells[p][a] == VotedAs(r.predLabels, labels, |labels|, p, a)
    ensures forall a :: 0 <= a < nlabels ==>
      0 <= r.cells[a][a] <= VotedLabel(r.predLabels, labels, |labels|, a) &&
      r.classError[a] == ClassError(r.cells[a][a], VotedLabel(r.predLabels, labels, |labels|, a))
    ensures r.errorRate == Rate(Misvoted(r.predLabels, labels, |labels|), Voted(r.predLabels, |labels|))
    ensures r.errorRate.Some? ==> 0.0 <= r.errorRate.value <= 1.0
    ensures (r.strength.Some? <==> Voted(r.predLabels, |labels|) > 0 && nlabels > 1) && (r.emr2.Some? <==> r.strength.Some?)
    ensures r.strength.Some? ==>
      (nlabels > 1 && r.strength == Mean(Some(MarginTotal(freq, count, labels, nlabels, |labels|)), Voted(r.predLabels, |labels|)))
    ensures r.strength.Some? ==> -1.0 <= r.strength.value <= 1.0
    ensures r.emr2.Some? ==>
      (nlabels > 1 && r.emr2 == Mean(Some(MarginSquares(freq, count, labels, nlabels, |labels|)), Voted(r.predLabels, |labels|)))
    ensures r.emr2.Some? ==> 0.0 <= r.emr2.value <= 1.0
  {
    var nobs := |labels|;
    var cf := Confusion(vs, labels, nlabels);
    var r := Eval(freq, count, PredsOf(vs), MaxJs(freq, count, labels, nlabels), cf.cells, cf.classError, cf.errorRate, cf.strength, cf.emr2, igrVis);
    if nlabels > 1 then
      MarginsAgree(vs, freq, count, labels, nlabels, nobs);
      SquaresAgree(vs, freq, count, labels, nlabels, nobs);
      r
    else r
  }

  /**
   * `calcEvalMeasures`: the votes collected from every tree's out-of-bag
   * predictions, from zero, and the measures read off them, with the gain
   * ratio sums averaged over the trees.
   */
  function EvalMeasures(trees: seq<TreeOob>, labels: seq<int>, nlabels: nat, nvars: nat): (r: Eval)
    requires nlabels >= 1 && AllFit(trees, |labels|, nlabels, nvars)
    requires forall o :: 0 <= o < |labels| ==> 1 <= labels[o] <= nlabels
    ensures |r.freq| == |r.count| == |labels|
    ensures forall o, l :: 0 <= o < |labels| && 0 <= l < nlabels ==> |r.freq[o]| == nlabels && r.freq[o][l] == TreePairs(trees, |trees|, o, l)
    ensures forall o :: 0 <= o < |labels| ==> r.count[o] == OobCount(trees, |trees|, o)
    ensures VoteInputs(r.freq, r.count, labels, nlabels)
    ensures VisitsFor(Visits(r.freq, r.count, labels, nlabels, |labels|), r.freq, r.count, labels, nlabels)
    ensures r == Summarise(r.freq, r.count, labels, nlabels, Visits(r.freq, r.count, labels, nlabels, |labels|), IgrVis(trees, nvars))
  {
    var fc := Collect(trees, |trees|, |labels|, nlabels, nvars);
    assert AllNonNeg(fc.1);
    VisitsAreFor(fc.0, fc.1, labels, nlabels, |labels|);
    Summarise(fc.0, fc.1, labels, nlabels, Visits(fc.0, fc.1, labels, nlabels, |labels|), IgrVis(trees, nvars))
  }
}
