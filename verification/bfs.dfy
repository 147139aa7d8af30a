/**
 * Trees, their breadth-first traversal, `Tree::save` and the reconstructing
 * constructor (src/tree.h, src/tree.cpp).
 *
 * `save` writes one record per node in breadth-first, left-to-right order.
 * The reconstruction reads the records from last to first, keeping a queue of
 * nodes still without a parent: each node takes its children from the front
 * of the queue and then joins its back. Because the children of every node
 * form the next consecutive block of the breadth-first order, this rebuilds
 * the saved tree.
 */
module Bfs {
  import opened Base
  import opened Nodes

  /** A node with its children. */
  datatype Tree = Tree(head: Rec, kids: seq<Tree>)

  /** Every node has as many children as child slots and a record `save` can write. */
  predicate Good(t: Tree, isDisc: seq<bool>)
    decreases t
  {
    && RecFits(t.head, isDisc)
    && |t.kids| == NChild(t.head)
    && forall i :: 0 <= i < |t.kids| ==> Good(t.kids[i], isDisc)
  }

  function Size(t: Tree): nat
    decreases t
  {
    1 + SizeOf(t.kids)
  }

  function SizeOf(ts: seq<Tree>): nat
    decreases ts
  {
    if |ts| == 0 then 0 else Size(ts[0]) + SizeOf(ts[1..])
  }

  lemma {:induction false} SizeOfAppend(a: seq<Tree>, b: seq<Tree>)
    ensures SizeOf(a + b) == SizeOf(a) + SizeOf(b)
  {
    if |a| > 0 {
      assert (a + b)[0] == a[0];
      assert (a + b)[1..] == a[1..] + b;
      SizeOfAppend(a[1..], b);
      assert SizeOf(a + b) == Size(a[0]) + SizeOf(a[1..] + b);
    } else {
      assert a + b == b;
    }
  }

  /**
   * The traversal of `doSthOnNodes` from a queue: take the front, append its
   * children to the back. Started from the root, visit `i` is `Order([root])[i]`.
   */
  function Order(q: seq<Tree>): (r: seq<Tree>)
    ensures |r| == SizeOf(q)
    decreases SizeOf(q)
  {
    if |q| == 0 then []
    else
      SizeOfAppend(q[1..], q[0].kids);
      assert SizeOf(q) == 1 + SizeOf(q[0].kids) + SizeOf(q[1..]);
      [q[0]] + Order(q[1..] + q[0].kids)
  }

  /** The number of children of the first `i` visited nodes. */
  function KidsBefore(l: seq<Tree>, i: nat): nat
    requires i <= |l|
  {
    if i == 0 then 0 else KidsBefore(l, i - 1) + |l[i - 1].kids|
  }

  lemma {:induction false} KidsShift(l: seq<Tree>, i: nat)
    requires 1 <= i <= |l|
    ensures KidsBefore(l, i) == |l[0].kids| + KidsBefore(l[1..], i - 1)
  {
    if i > 1 {
      KidsShift(l, i - 1);
    }
  }

  /**
   * The shape of a breadth-first order from a queue of `n0` nodes: it starts
   * with the queue, counts every node once, and the children of visit `i` are
   * the block that starts after the queue and all earlier visits' children.
   */
  predicate Blocks(l: seq<Tree>, n0: nat)
  {
    && n0 <= |l|
    && |l| == n0 + KidsBefore(l, |l|)
    && forall i :: 0 <= i < |l| ==> BlockAt(l, n0, i)
  }

  predicate BlockAt(l: seq<Tree>, n0: nat, i: nat)
    requires i < |l|
  {
    var st := n0 + KidsBefore(l, i);
    i < st && st + |l[i].kids| <= |l| && l[st..st + |l[i].kids|] == l[i].kids
  }

  /** Breadth-first order keeps each node's children together, in order, right after the earlier nodes' children. */
  lemma {:induction false} OrderBlocks(q: seq<Tree>)
    ensures Blocks(Order(q), |q|) && Order(q)[..|q|] == q
    decreases SizeOf(q)
  {
    if |q| > 0 {
      var l := Order(q);
      var q' := q[1..] + q[0].kids;
      var l' := Order(q');
      SizeOfAppend(q[1..], q[0].kids);
      assert SizeOf(q) == 1 + SizeOf(q[0].kids) + SizeOf(q[1..]);
      OrderBlocks(q');
      assert l == [q[0]] + l';
      OrderHead(q, l, l');
      BlockFirst(q, l, l');
      forall i | 1 <= i < |l|
        ensures BlockAt(l, |q|, i)
      {
        BlockLater(q, l, l', i);
      }
    }
  }

  lemma OrderHead(q: seq<Tree>, l: seq<Tree>, l': seq<Tree>)
    requires |q| > 0 && l == [q[0]] + l'
    requires Blocks(l', |q| - 1 + |q[0].kids|) && l'[..|q| - 1 + |q[0].kids|] == q[1..] + q[0].kids
    ensures |q| <= |l| && |l| == |q| + KidsBefore(l, |l|) && l[..|q|] == q
  {
    assert l[1..] == l';
    KidsShift(l, |l|);
    assert l'[..|q| - 1] == q[1..];
  }

  lemma BlockFirst(q: seq<Tree>, l: seq<Tree>, l': seq<Tree>)
    requires |q| > 0 && l' == Order(q[1..] + q[0].kids) && l == [q[0]] + l'
    requires Blocks(l', |q| - 1 + |q[0].kids|) && l'[..|q| - 1 + |q[0].kids|] == q[1..] + q[0].kids
    ensures BlockAt(l, |q|, 0)
  {
    var k := |q[0].kids|;
    assert l[|q|..|q| + k] == l'[|q| - 1..|q| - 1 + k];
    assert l'[|q| - 1..|q| - 1 + k] == (q[1..] + q[0].kids)[|q| - 1..];
  }

  lemma BlockLater(q: seq<Tree>, l: seq<Tree>, l': seq<Tree>, i: nat)
    requires |q| > 0 && l == [q[0]] + l' && 1 <= i < |l|
    requires Blocks(l', |q| - 1 + |q[0].kids|)
    ensures BlockAt(l, |q|, i)
  {
    KidsShift(l, i);
    assert l[1..] == l';
    assert BlockAt(l', |q| - 1 + |q[0].kids|, i - 1);
    var st := |q| + KidsBefore(l, i);
    var k := |l[i].kids|;
    assert l[st..st + k] == l'[st - 1..st - 1 + k];
  }

  /** Every node visited from a queue of good trees is good. */
  lemma {:induction false} OrderGood(q: seq<Tree>, isDisc: seq<bool>)
    requires forall i :: 0 <= i < |q| ==> Good(q[i], isDisc)
    ensures forall i :: 0 <= i < |Order(q)| ==> Good(Order(q)[i], isDisc)
    decreases SizeOf(q)
  {
    if |q| > 0 {
      var q' := q[1..] + q[0].kids;
      assert forall i :: 0 <= i < |q'| ==> Good(q'[i], isDisc) by {
        forall i | 0 <= i < |q'|
          ensures Good(q'[i], isDisc)
        {
          if i < |q| - 1 { assert q'[i] == q[i + 1]; } else { assert q'[i] == q[0].kids[i - |q| + 1]; }
        }
      }
      SizeOfAppend(q[1..], q[0].kids);
      assert SizeOf(q) == 1 + SizeOf(q[0].kids) + SizeOf(q[1..]);
      OrderGood(q', isDisc);
      var l := Order(q);
      assert forall i :: 1 <= i < |l| ==> l[i] == Order(q')[i - 1];
    }
  }

  /** `u` is a node of `t`: `t` itself or a node of one of its children. */
  predicate Sub(t: Tree, u: Tree)
    decreases t
  {
    u == t || exists i :: 0 <= i < |t.kids| && Sub(t.kids[i], u)
  }

  /** The traversal from the root reaches every node of the tree. */
  lemma OrderHasAll(t: Tree, u: Tree)
    requires Sub(t, u)
    ensures u in Order([t])
  {
    var l := Order([t]);
    OrderBlocks([t]);
    assert l[0] == l[..1][0] == t;
    SubIn(l, 1, t, u);
  }

  lemma {:induction false} SubIn(l: seq<Tree>, n0: nat, x: Tree, u: Tree)
    requires Blocks(l, n0) && x in l && Sub(x, u)
    ensures u in l
    decreases x
  {
    if u != x {
      var j :| 0 <= j < |x.kids| && Sub(x.kids[j], u);
      var i :| 0 <= i < |l| && l[i] == x;
      assert BlockAt(l, n0, i);
      var st := n0 + KidsBefore(l, i);
      assert x.kids[j] == l[st..st + |x.kids|][j] == l[st + j];
      SubIn(l, n0, x.kids[j], u);
    }
  }

  /** The traversal from a queue visits only nodes of the queued trees. */
  lemma {:induction false} OrderOnlySubs(q: seq<Tree>, y: Tree)
    requires y in Order(q)
    ensures exists z :: z in q && Sub(z, y)
    decreases SizeOf(q)
  {
    var q' := q[1..] + q[0].kids;
    SizeOfAppend(q[1..], q[0].kids);
    assert SizeOf(q) == 1 + SizeOf(q[0].kids) + SizeOf(q[1..]);
    if y != q[0] {
      assert y in Order(q');
      OrderOnlySubs(q', y);
      var z :| z in q' && Sub(z, y);
      if z in q[1..] {
        assert z in q;
      } else {
        var j :| 0 <= j < |q[0].kids| && q[0].kids[j] == z;
        assert Sub(q[0], y);
      }
    } else {
      assert Sub(q[0], y);
    }
  }

  /** `doSthOnNodes` from the root visits exactly the nodes of the tree, one visit per node. */
  lemma VisitsEveryNode(t: Tree)
    ensures |Order([t])| == Size(t)
    ensures forall u :: u in Order([t]) <==> Sub(t, u)
  {
    assert SizeOf([t]) == Size(t) by { assert [t][1..] == []; }
    forall u
      ensures u in Order([t]) <==> Sub(t, u)
    {
      if Sub(t, u) {
        OrderHasAll(t, u);
      }
      if u in Order([t]) {
        OrderOnlySubs([t], u);
      }
    }
  }

  // ---------------------------------------------------------------------------
  // save

  /** `Tree::save`: the nodes' records in visiting order. */
  function Save(t: Tree, isDisc: seq<bool>): (recs: seq<seq<Num>>)
    requires Good(t, isDisc)
    ensures |recs| == Size(t)
    ensures forall i :: 0 <= i < |recs| ==> Decode(recs[i], isDisc) == Ok(Order([t])[i].head)
  {
    var l := Order([t]);
    OrderGood([t], isDisc);
    assert SizeOf([t]) == Size(t) by { assert [t][1..] == []; }
    var recs := seq(|l|, i requires 0 <= i < |l| => Encode(l[i].head, isDisc));
    assert forall i :: 0 <= i < |recs| ==> Decode(recs[i], isDisc) == Ok(l[i].head) by {
      forall i | 0 <= i < |recs| { RoundTrip(l[i].head, isDisc); }
    }
    recs
  }

  // ---------------------------------------------------------------------------
  // Reconstruction

  function Rev<T>(s: seq<T>): (r: seq<T>)
    ensures |r| == |s| && forall i :: 0 <= i < |s| ==> r[i] == s[|s| - 1 - i]
  {
    seq(|s|, i requires 0 <= i < |s| => s[|s| - 1 - i])
  }

  /** Decode every record; any record the constructor cannot read rejects the whole tree. */
  function DecodeAll(records: seq<seq<Num>>, isDisc: seq<bool>): (r: Result<seq<Rec>>)
    ensures r.Ok? ==> |r.value| == |records| && forall i :: 0 <= i < |records| ==> Decode(records[i], isDisc) == Ok(r.value[i])
    ensures r.Err? <==> exists i :: 0 <= i < |records| && Decode(records[i], isDisc).Err?
  {
    if |records| == 0 then Ok([])
    else
      var first := Decode(records[0], isDisc);
      var rest := DecodeAll(records[1..], isDisc);
      if first.Err? then Err(Malformed)
      else if rest.Err? then
        var i :| 0 <= i < |records[1..]| && Decode(records[1..][i], isDisc).Err?;
        assert Decode(records[i + 1], isDisc).Err?;
        Err(Malformed)
      else
        var r := [first.value] + rest.value;
        assert forall i :: 1 <= i < |records| ==> records[i] == records[1..][i - 1];
        Ok(r)
  }

  /**
   * The loop of the reconstructing constructor over records `i - 1` down to
   * 0: the node takes its children from the front of the queue, last slot
   * first, and joins the back of the queue. Too few parentless nodes is a
   * malformed record list.
   */
  function Assemble(recs: seq<Rec>, i: nat, q: seq<Tree>): (r: Result<seq<Tree>>)
    requires i <= |recs|
    ensures r.Err? ==> r.error == Malformed
    decreases i
  {
    if i == 0 then Ok(q)
    else
      var k := NChild(recs[i - 1]);
      if |q| < k then Err(Malformed)
      else Assemble(recs, i - 1, q[k..] + [Tree(recs[i - 1], Rev(q[..k]))])
  }

  /** Every record read becomes exactly one node of the queue: nothing is lost or invented. */
  lemma {:induction false} AssembleSize(recs: seq<Rec>, i: nat, q: seq<Tree>)
    requires i <= |recs| && Assemble(recs, i, q).Ok?
    ensures SizeOf(Assemble(recs, i, q).value) == SizeOf(q) + i
    decreases i
  {
    if i > 0 {
      var k := NChild(recs[i - 1]);
      PushSize(q, k, recs[i - 1]);
      AssembleSize(recs, i - 1, q[k..] + [Tree(recs[i - 1], Rev(q[..k]))]);
    }
  }

  /** Popping `k` trees and pushing them back under one new node adds exactly that node. */
  lemma PushSize(q: seq<Tree>, k: nat, rec: Rec)
    requires k <= |q|
    ensures SizeOf(q[k..] + [Tree(rec, Rev(q[..k]))]) == SizeOf(q) + 1
  {
    var t := Tree(rec, Rev(q[..k]));
    SizeOfAppend(q[k..], [t]);
    assert SizeOf([t]) == Size(t) + SizeOf([t][1..]);
    assert [t][1..] == [];
    SizeOfRev(q[..k]);
    SizeOfAppend(q[..k], q[k..]);
    assert q[..k] + q[k..] == q;
  }

  lemma {:induction false} SizeOfRev(s: seq<Tree>)
    ensures SizeOf(Rev(s)) == SizeOf(s)
  {
    if |s| > 0 {
      SizeOfRev(s[1..]);
      RevAppend([s[0]], s[1..]);
      assert [s[0]] + s[1..] == s;
      assert Rev([s[0]]) == [s[0]];
      SizeOfAppend(Rev(s[1..]), [s[0]]);
      assert SizeOf([s[0]]) == Size(s[0]) + SizeOf([s[0]][1..]);
      assert [s[0]][1..] == [];
    }
  }

  /** The reconstructing constructor: the root is the node left at the front of the queue. */
  function Rebuild(records: seq<seq<Num>>, isDisc: seq<bool>): (r: Result<Tree>)
    ensures DecodeAll(records, isDisc).Err? ==> r.Err?
    ensures r.Ok? ==> Size(r.value) <= |records|
  {
    match DecodeAll(records, isDisc)
    case Err(e) => Err(e)
    case Ok(recs) =>
      match Assemble(recs, |recs|, [])
      case Err(e) => Err(e)
      case Ok(q) =>
        if |q| == 0 then Err(Malformed)
        else
          AssembleSize(recs, |recs|, []);
          assert SizeOf([]) == 0 && SizeOf(q) == Size(q[0]) + SizeOf(q[1..]);
          Ok(q[0])
  }

  function Heads(l: seq<Tree>): (r: seq<Rec>)
    ensures |r| == |l| && forall i :: 0 <= i < |l| ==> r[i] == l[i].head
  {
    seq(|l|, i requires 0 <= i < |l| => l[i].head)
  }

  /** Reading back the records of `save` gives the saved tree. */
  lemma SaveRebuild(t: Tree, isDisc: seq<bool>)
    requires Good(t, isDisc)
    ensures Rebuild(Save(t, isDisc), isDisc) == Ok(t)
  {
    var l := Order([t]);
    DecodeAllOk(Save(t, isDisc), Heads(l), isDisc);
    AssembleAll(t, isDisc);
  }

  /** Read from last to first, the breadth-first records leave exactly the root in the queue. */
  lemma AssembleAll(t: Tree, isDisc: seq<bool>)
    requires Good(t, isDisc)
    ensures Assemble(Heads(Order([t])), |Order([t])|, []) == Ok([t])
  {
    var l := Order([t]);
    OrderBlocks([t]);
    OrderGood([t], isDisc);
    assert l[|l|..1 + KidsBefore(l, |l|)] == [];
    AssembleFrom(l, |l|, isDisc);
    assert l[0..1] == [t];
    assert Rev(l[0..1]) == [t];
  }

  lemma {:induction false} DecodeAllOk(records: seq<seq<Num>>, recs: seq<Rec>, isDisc: seq<bool>)
    requires |records| == |recs| && forall i :: 0 <= i < |records| ==> Decode(records[i], isDisc) == Ok(recs[i])
    ensures DecodeAll(records, isDisc) == Ok(recs)
  {
    if |records| > 0 {
      DecodeAllOk(records[1..], recs[1..], isDisc);
      assert [recs[0]] + recs[1..] == recs;
    }
  }

  /**
   * The loop invariant of the reconstruction: before record `i - 1` is read,
   * the queue holds the visits `i .. St(i) - 1`, whose parents come before
   * `i`, latest first.
   */
  lemma {:induction false} AssembleFrom(l: seq<Tree>, i: nat, isDisc: seq<bool>)
    requires Blocks(l, 1) && |l| > 0 && i <= |l|
    requires forall j :: 0 <= j < |l| ==> Good(l[j], isDisc)
    ensures i <= 1 + KidsBefore(l, i) <= |l|
    ensures Assemble(Heads(l), i, Rev(l[i..1 + KidsBefore(l, i)])) == Ok([l[0]])
    decreases i
  {
    if i == 0 {
      assert KidsBefore(l, 0) == 0;
      assert Rev(l[0..1]) == [l[0]];
      assert Assemble(Heads(l), 0, [l[0]]) == Ok([l[0]]);
    } else {
      var j := i - 1;
      assert BlockAt(l, 1, j);
      AssembleFrom(l, j, isDisc);
      AssembleStep(l, j, isDisc);
      assert Assemble(Heads(l), i, Rev(l[i..1 + KidsBefore(l, i)])) == Ok([l[0]]);
    }
  }

  lemma AssembleStep(l: seq<Tree>, j: nat, isDisc: seq<bool>)
    requires Blocks(l, 1) && j < |l|
    requires Good(l[j], isDisc)
    ensures j < 1 + KidsBefore(l, j) && j + 1 <= 1 + KidsBefore(l, j + 1) <= |l|
    ensures Assemble(Heads(l), j + 1, Rev(l[j + 1..1 + KidsBefore(l, j + 1)])) ==
            Assemble(Heads(l), j, Rev(l[j..1 + KidsBefore(l, j)]))
  {
    QueueStep(l, j);
    var kids := l[j].kids;
    var k := |kids|;
    assert NChild(Heads(l)[j]) == k;
    RevRev(kids);
    assert Tree(l[j].head, kids) == l[j];
  }

  /** The queue before node `j` is read: its first `|kids|` entries are `j`'s children, latest first. */
  lemma QueueStep(l: seq<Tree>, j: nat)
    requires Blocks(l, 1) && j < |l|
    ensures var st := 1 + KidsBefore(l, j);
            var k := |l[j].kids|;
            && j < st && st + k <= |l| && 1 + KidsBefore(l, j + 1) == st + k
            && |Rev(l[j + 1..st + k])| >= k
            && Rev(l[j + 1..st + k])[..k] == Rev(l[j].kids)
            && Rev(l[j + 1..st + k])[k..] + [l[j]] == Rev(l[j..st])
  {
    assert BlockAt(l, 1, j);
    var st := 1 + KidsBefore(l, j);
    var kids := l[j].kids;
    var k := |kids|;
    var en := st + k;
    assert l[j + 1..en] == l[j + 1..st] + kids;
    RevAppend(l[j + 1..st], kids);
    assert l[j..st] == [l[j]] + l[j + 1..st];
    RevAppend([l[j]], l[j + 1..st]);
  }

  lemma RevAppend<T>(a: seq<T>, b: seq<T>)
    ensures Rev(a + b) == Rev(b) + Rev(a)
  {
    assert forall i :: 0 <= i < |b| ==> Rev(a + b)[i] == Rev(b)[i];
    assert forall i :: |b| <= i < |a| + |b| ==> Rev(a + b)[i] == Rev(a)[i - |b|];
  }

  lemma RevRev<T>(a: seq<T>)
    ensures Rev(Rev(a)) == a
  {
  }

  // ---------------------------------------------------------------------------
  // Variables used for splitting

  /**
   * `doSthOnNodes(root, markOneVarUsed)` over the visits `l`: a variable is
   * marked when some internal node splits on it.
   */
  function MarkUsed(l: seq<Tree>, used: seq<bool>): (r: seq<bool>)
    ensures |r| == |used|
    ensures forall v :: 0 <= v < |used| && used[v] ==> r[v]
    ensures forall v :: 0 <= v < |used| && (forall i :: 0 <= i < |l| ==> !l[i].head.InternalRec? || l[i].head.varIdx != v) ==>
              r[v] == used[v]
  {
    if |l| == 0 then used
    else
      var h := l[0].head;
      var used' := if h.InternalRec? && h.varIdx < |used| then used[h.varIdx := true] else used;
      MarkUsed(l[1..], used')
  }

  /** Variable `v` is marked exactly when it was marked before or some internal node of `l` splits on it. */
  lemma {:induction false} MarkUsedSpec(l: seq<Tree>, used: seq<bool>, v: nat)
    requires v < |used|
    ensures MarkUsed(l, used)[v] <==>
              used[v] || exists i :: 0 <= i < |l| && l[i].head.InternalRec? && l[i].head.varIdx == v
  {
    if |l| > 0 {
      var h := l[0].head;
      var used' := if h.InternalRec? && h.varIdx < |used| then used[h.varIdx := true] else used;
      MarkUsedSpec(l[1..], used', v);
      if exists i :: 0 <= i < |l[1..]| && l[1..][i].head.InternalRec? && l[1..][i].head.varIdx == v {
        var i :| 0 <= i < |l[1..]| && l[1..][i].head.InternalRec? && l[1..][i].head.varIdx == v;
        assert l[i + 1] == l[1..][i];
      }
      if exists i :: 0 <= i < |l| && l[i].head.InternalRec? && l[i].head.varIdx == v {
        var i :| 0 <= i < |l| && l[i].head.InternalRec? && l[i].head.varIdx == v;
        if i > 0 { assert l[1..][i - 1] == l[i]; }
      }
    }
  }

  /** The used-variable flags of a tree over `nvars` variables. */
  function UsedVars(t: Tree, nvars: nat): (r: seq<bool>)
    ensures |r| == nvars
  {
    MarkUsed(Order([t]), seq(nvars, _ => false))
  }

  /** A variable is marked used exactly when some internal node of the tree splits on it. */
  lemma UsedIff(t: Tree, nvars: nat, v: nat)
    requires v < nvars
    ensures UsedVars(t, nvars)[v] <==> exists u :: Sub(t, u) && u.head.InternalRec? && u.head.varIdx == v
  {
    var l := Order([t]);
    MarkUsedSpec(l, seq(nvars, _ => false), v);
    VisitsEveryNode(t);
    if exists u :: Sub(t, u) && u.head.InternalRec? && u.head.varIdx == v {
      var u :| Sub(t, u) && u.head.InternalRec? && u.head.varIdx == v;
      assert u in l;
    }
  }
}
