/**
 * Shared vocabulary of the forest model: optional values, results with the
 * error kinds the engine raises, random streams, and small facts about sums,
 * counts and the first-maximum choice that several components rely on.
 */
module Base {

  /** A value that may be missing; also stands for R's NA_REAL. */
  datatype Option<+T> = None | Some(value: T)

  /** The failures the engine reports by throwing. */
  datatype Error =
    | EmptyDataset     // a training set without observations
    | UnexpectedValue  // prediction-time categorical levels incompatible with training
    | BadPosition      // a continuous split position outside the observation set
    | EmptyNode        // an empty observation set where a label is needed
    | NonLeafNode      // a label distribution asked of an internal node
    | Malformed        // a flattened node record the reconstruction cannot read

  datatype Result<+T> = Ok(value: T) | Err(error: Error)

  /** Raw outputs of a random engine seeded once: output `i` feeds draw `i`. */
  type Stream = nat -> nat

  /** A family of random engines, one per seed. */
  type Engine = (nat, nat) -> nat

  /** `seed_ += 1` on an unsigned 32-bit seed: the successor, wrapping to 0. */
  function NextSeed(seed: nat): (r: nat)
    ensures r < WORD
    ensures seed + 1 < WORD ==> r == seed + 1
    ensures seed + 1 == WORD ==> r == 0
  {
    (seed + 1) % WORD
  }

  /** A uniform integer in [0, bound): any value of the range is reachable. */
  function Uniform(s: Stream, i: nat, bound: nat): (r: nat)
    requires bound > 0
    ensures r < bound
  {
    s(i) % bound
  }

  function Sum(s: seq<int>): int
  {
    if |s| == 0 then 0 else s[0] + Sum(s[1..])
  }

  function SumReal(s: seq<real>): real
  {
    if |s| == 0 then 0.0 else s[0] + SumReal(s[1..])
  }

  function Min(a: int, b: int): int
  {
    if a <= b then a else b
  }

  predicate Distinct<T(==)>(s: seq<T>)
  {
    forall i, j :: 0 <= i < j < |s| ==> s[i] != s[j]
  }

  predicate AllNonNeg(s: seq<int>)
  {
    forall i :: 0 <= i < |s| ==> s[i] >= 0
  }

  function Zeros(n: nat): (z: seq<int>)
    ensures |z| == n && forall i :: 0 <= i < n ==> z[i] == 0
  {
    seq(n, _ => 0)
  }

  /** Concatenation of a sequence of sequences, in order. */
  function Concat<T>(parts: seq<seq<T>>): seq<T>
  {
    if |parts| == 0 then [] else parts[0] + Concat(parts[1..])
  }

  /** Sizes of the parts of a partition. */
  function Sizes<T>(parts: seq<seq<T>>): (r: seq<int>)
    ensures |r| == |parts|
    ensures forall k :: 0 <= k < |parts| ==> r[k] == |parts[k]|
  {
    seq(|parts|, k requires 0 <= k < |parts| => |parts[k]|)
  }

  lemma {:induction false} SumAppend(a: seq<int>, x: int)
    ensures Sum(a + [x]) == Sum(a) + x
  {
    if |a| == 0 {
      assert a + [x] == [x];
    } else {
      assert (a + [x])[1..] == a[1..] + [x];
      SumAppend(a[1..], x);
    }
  }

  lemma {:induction false} SumConcat(a: seq<int>, b: seq<int>)
    ensures Sum(a + b) == Sum(a) + Sum(b)
  {
    if |a| == 0 {
      assert a + b == b;
    } else {
      assert (a + b)[1..] == a[1..] + b;
      SumConcat(a[1..], b);
    }
  }

  /** Raising one entry by `d` raises the sum by `d`. */
  lemma {:induction false} SumUpdate(s: seq<int>, i: nat, d: int)
    requires i < |s|
    ensures Sum(s[i := s[i] + d]) == Sum(s) + d
  {
    if i == 0 {
      assert s[i := s[i] + d][1..] == s[1..];
    } else {
      assert s[i := s[i] + d][1..] == s[1..][i - 1 := s[i] + d];
      SumUpdate(s[1..], i - 1, d);
    }
  }

  lemma {:induction false} SumZeros(n: nat)
    ensures Sum(Zeros(n)) == 0
  {
    if n > 0 {
      assert Zeros(n)[1..] == Zeros(n - 1);
      SumZeros(n - 1);
    }
  }

  lemma {:induction false} SumNonNeg(s: seq<int>)
    requires AllNonNeg(s)
    ensures Sum(s) >= 0
    ensures forall i :: 0 <= i < |s| ==> s[i] <= Sum(s)
  {
    if |s| > 0 {
      SumNonNeg(s[1..]);
      forall i | 1 <= i < |s|
        ensures s[i] <= Sum(s)
      {
        assert s[i] == s[1..][i - 1];
      }
    }
  }

  /** Two different entries of non-negative numbers together are at most their sum. */
  lemma {:induction false} SumTwo(s: seq<int>, i: nat, j: nat)
    requires AllNonNeg(s) && i < |s| && j < |s| && i != j
    ensures s[i] + s[j] <= Sum(s)
  {
    SumNonNeg(s[1..]);
    if i == 0 {
      assert s[j] == s[1..][j - 1];
    } else if j == 0 {
      assert s[i] == s[1..][i - 1];
    } else {
      SumTwo(s[1..], i - 1, j - 1);
      assert s[i] == s[1..][i - 1] && s[j] == s[1..][j - 1];
      assert s[0] >= 0;
    }
  }

  lemma {:induction false} ConcatAppendLast<T>(parts: seq<seq<T>>, k: nat, x: T)
    requires k < |parts|
    ensures multiset(Concat(parts[k := parts[k] + [x]])) == multiset(Concat(parts)) + multiset{x}
    ensures |Concat(parts[k := parts[k] + [x]])| == |Concat(parts)| + 1
  {
    if k == 0 {
      assert parts[k := parts[k] + [x]][1..] == parts[1..];
    } else {
      assert parts[k := parts[k] + [x]][1..] == parts[1..][k - 1 := parts[k] + [x]];
      ConcatAppendLast(parts[1..], k - 1, x);
    }
  }

  /** Every part is contained in the concatenation. */
  lemma {:induction false} ConcatMember<T>(parts: seq<seq<T>>, k: nat)
    requires k < |parts|
    ensures multiset(parts[k]) <= multiset(Concat(parts))
    ensures forall x :: x in parts[k] ==> x in Concat(parts)
  {
    if k > 0 {
      ConcatMember(parts[1..], k - 1);
    }
    assert forall x :: x in multiset(parts[k]) ==> x in multiset(Concat(parts));
  }

  lemma {:induction false} ConcatSize<T>(parts: seq<seq<T>>)
    ensures |Concat(parts)| == Sum(Sizes(parts))
  {
    if |parts| > 0 {
      assert Sizes(parts)[1..] == Sizes(parts[1..]);
      ConcatSize(parts[1..]);
    }
  }

  /**
   * Index of the first largest entry, the choice `max_element` makes: the
   * scan replaces its candidate only on a strictly larger value.
   */
  function ArgMax(s: seq<int>): (k: nat)
    requires |s| > 0
    ensures k < |s|
    ensures forall i :: 0 <= i < |s| ==> s[i] <= s[k]
    ensures forall i :: 0 <= i < k ==> s[i] < s[k]
  {
    if |s| == 1 then 0
    else
      var k := ArgMax(s[..|s| - 1]);
      if s[|s| - 1] > s[k] then |s| - 1 else k
  }

  /** 2^32: unsigned 32-bit values wrap around modulo `WORD`. */
  const WORD: nat := 0x1_0000_0000

  /** A value of a C `int`. */
  predicate Int32(x: int)
  {
    -0x8000_0000 <= x < 0x8000_0000
  }

  /** `2^k`. */
  function Pow2(k: nat): (r: nat)
    ensures r >= 1
  {
    if k == 0 then 1 else 2 * Pow2(k - 1)
  }

  /** A count over a total as a double; 0/0, NaN in the source, is `None`. */
  function Rate(num: int, den: int): (r: Option<real>)
    ensures r.Some? <==> den != 0
    ensures r.Some? ==> r.value * den as real == num as real
  {
    if den == 0 then None else Some(num as real / den as real)
  }

  /** The values of a sequence of results, or the first error among them. */
  function AllOk<T>(xs: seq<Result<T>>): (r: Result<seq<T>>)
    ensures r.Ok? <==> forall i :: 0 <= i < |xs| ==> xs[i].Ok?
    ensures r.Ok? ==> |r.value| == |xs| && forall i :: 0 <= i < |xs| ==> r.value[i] == xs[i].value
  {
    if |xs| == 0 then Ok([])
    else
      var rest := AllOk(xs[1..]);
      assert forall i :: 1 <= i < |xs| ==> xs[1..][i - 1] == xs[i];
      if xs[0].Err? then Err(xs[0].error)
      else if rest.Err? then Err(rest.error)
      else Ok([xs[0].value] + rest.value)
  }
}
