/**
 * Paths in the 1-based binary heap of src/sampling.cpp: slot `j`'s parent is
 * `j / 2` (the source's `j >>= 1`), so the slots a weight update walks
 * through are `j` and its ancestors up to the root, slot 1.
 */
module HeapPath {
  /** `k` is `j` or one of its ancestors in the heap. */
  predicate Anc(k: nat, j: nat)
    decreases j
  {
    j >= 1 && (k == j || Anc(k, j / 2))
  }

  lemma {:induction false} AncLe(k: nat, j: nat)
    requires Anc(k, j)
    ensures 1 <= k <= j
    decreases j
  {
    if k != j {
      AncLe(k, j / 2);
    }
  }

  lemma {:induction false} AncRoot(j: nat)
    requires j >= 1
    ensures Anc(1, j)
    decreases j
  {
    if j > 1 {
      AncRoot(j / 2);
    }
  }

  lemma {:induction false} AncParent(c: nat, j: nat)
    requires Anc(c, j) && c >= 2
    ensures Anc(c / 2, j)
    decreases j
  {
    if c == j {
      assert Anc(c / 2, j / 2);
    } else {
      AncParent(c, j / 2);
    }
  }

  lemma {:induction false} AncChild(k: nat, j: nat)
    requires Anc(k, j) && k != j
    ensures Anc(2 * k, j) || Anc(2 * k + 1, j)
    decreases j
  {
    if k == j / 2 {
      assert j == 2 * k || j == 2 * k + 1;
    } else {
      AncChild(k, j / 2);
    }
  }

  lemma {:induction false} AncSiblings(k: nat, j: nat)
    requires k >= 1
    ensures !(Anc(2 * k, j) && Anc(2 * k + 1, j))
    decreases j
  {
    if Anc(2 * k, j) && Anc(2 * k + 1, j) {
      if j == 2 * k {
        AncLe(2 * k + 1, j);
      } else if j == 2 * k + 1 {
        AncLe(2 * k, j / 2);
      } else {
        AncSiblings(k, j / 2);
      }
    }
  }
}
