/** Implicit binary trees in an array whose inner nodes hold the sums of their leaves. */
module SumTree {

  function Pow2(n: nat): (r: int)
    ensures r >= 1
  {
    if n == 0 then 1 else 2 * Pow2(n - 1)
  }

  lemma {:induction false} Pow2Monotone(m: nat, n: nat)
    requires m <= n
    ensures Pow2(m) <= Pow2(n)
    decreases n
  {
    if m < n {
      Pow2Monotone(m, n - 1);
    }
  }

  function Sum(v: seq<int>, lo: int, hi: int): int
    requires 0 <= lo && hi <= |v|
    decreases hi - lo
  {
    if lo >= hi then 0 else Sum(v, lo, hi - 1) + v[hi - 1]
  }

  lemma SumEmpty(v: seq<int>, lo: int)
    requires 0 <= lo <= |v|
    ensures Sum(v, lo, lo) == 0
  {
  }

  lemma {:induction false} SumSplit(v: seq<int>, lo: int, mid: int, hi: int)
    requires 0 <= lo <= mid <= hi <= |v|
    ensures Sum(v, lo, hi) == Sum(v, lo, mid) + Sum(v, mid, hi)
    decreases hi
  {
    if mid < hi {
      SumSplit(v, lo, mid, hi - 1);
    }
  }

  lemma {:induction false} SumSame(v: seq<int>, w: seq<int>, lo: int, hi: int)
    requires 0 <= lo && hi <= |v| && hi <= |w| && forall i :: lo <= i < hi ==> v[i] == w[i]
    ensures Sum(v, lo, hi) == Sum(w, lo, hi)
    decreases hi - lo
  {
    if lo < hi {
      SumSame(v, w, lo, hi - 1);
    }
  }

  ghost predicate Natural(v: seq<int>) {
    forall k :: 0 <= k < |v| ==> v[k] >= 0
  }

  lemma {:induction false} SumNatural(v: seq<int>, lo: int, hi: int)
    requires 0 <= lo && hi <= |v| && Natural(v)
    ensures 0 <= Sum(v, lo, hi)
    decreases hi - lo
  {
    if lo < hi {
      SumNatural(v, lo, hi - 1);
    }
  }

  lemma SumMonotone(v: seq<int>, lo: int, mid: int, hi: int)
    requires 0 <= lo <= mid <= hi <= |v| && Natural(v)
    ensures 0 <= Sum(v, lo, mid) <= Sum(v, lo, hi)
  {
    SumSplit(v, lo, mid, hi);
    SumNatural(v, lo, mid);
    SumNatural(v, mid, hi);
  }

  // ----- the shape of the tree -----

  /** Node i stands at height h of a tree of height top: its level has Pow2(top - h) nodes. */
  ghost predicate OnLevel(i: int, h: int, top: int) {
    0 <= h <= top && Pow2(top - h) <= i + 1 < 2 * Pow2(top - h)
  }

  /** The leftmost leaf under node i at height h; the leaves of i end where those of i + 1 begin. */
  function FirstLeaf(i: int, h: nat): int
    decreases h
  {
    if h == 0 then i else FirstLeaf(2 * i + 1, h - 1)
  }

  lemma ChildLevels(i: int, h: int, top: int)
    requires OnLevel(i, h, top) && 0 < h
    ensures OnLevel(2 * i + 1, h - 1, top) && OnLevel(2 * i + 2, h - 1, top)
    ensures FirstLeaf(i, h) == FirstLeaf(2 * i + 1, h - 1)
    ensures FirstLeaf(i + 1, h) == FirstLeaf(2 * i + 2 + 1, h - 1)
  {
  }

  lemma ParentLevel(i: int, h: int, top: int)
    requires OnLevel(i, h, top) && 0 < i
    ensures h < top && OnLevel((i - 1) / 2, h + 1, top)
  {
    assert Pow2(0) == 1;
  }

  lemma RootLevel(h: int, top: int)
    requires OnLevel(0, h, top)
    ensures h == top
  {
    assert Pow2(1) == 2;
    Pow2Monotone(if h < top then 1 else 0, top - h);
  }

  /** A node is a leaf exactly when its index reaches the width of the lowest level less one. */
  lemma LeafLevel(i: int, h: int, top: int)
    requires OnLevel(i, h, top)
    ensures h == 0 <==> i >= Pow2(top) - 1
  {
    if 0 < h {
      Pow2Monotone(top - h + 1, top);
    }
  }

  lemma {:induction false} LeavesInside(i: int, h: int, top: int)
    requires OnLevel(i, h, top)
    ensures Pow2(top) - 1 <= FirstLeaf(i, h) < FirstLeaf(i + 1, h) <= 2 * Pow2(top) - 1
    decreases h
  {
    if 0 < h {
      ChildLevels(i, h, top);
      LeavesInside(2 * i + 1, h - 1, top);
      LeavesInside(2 * i + 2, h - 1, top);
    }
  }

  lemma {:induction false} FirstLeafClosed(i: int, h: nat)
    ensures FirstLeaf(i, h) == (i + 1) * Pow2(h) - 1
    decreases h
  {
    if 0 < h {
      FirstLeafClosed(2 * i + 1, h - 1);
      assert (2 * i + 2) * Pow2(h - 1) == (i + 1) * (2 * Pow2(h - 1));
    }
  }

  /** The root covers all leaves. */
  lemma RootLeaves(top: nat)
    ensures OnLevel(0, top, top)
    ensures FirstLeaf(0, top) == Pow2(top) - 1
    ensures FirstLeaf(1, top) == 2 * Pow2(top) - 1
  {
    FirstLeafClosed(0, top);
    FirstLeafClosed(1, top);
  }

  ghost predicate IsSum(v: seq<int>, i: int)
    requires 0 <= i && 2 * i + 2 < |v|
  {
    v[i] == v[2 * i + 1] + v[2 * i + 2]
  }

  /** Every inner node is the sum of its children. */
  ghost predicate Summed(v: seq<int>, top: nat) {
    && |v| == 2 * Pow2(top) - 1
    && Natural(v)
    && (forall i :: 0 <= i < Pow2(top) - 1 ==> IsSum(v, i))
  }

  /** So every node is the sum of the leaves below it. */
  lemma {:induction false} NodeSum(v: seq<int>, i: int, h: int, top: nat)
    requires Summed(v, top) && OnLevel(i, h, top)
    ensures 0 <= FirstLeaf(i, h) < FirstLeaf(i + 1, h) <= |v|
    ensures 0 <= i < |v| && v[i] == Sum(v, FirstLeaf(i, h), FirstLeaf(i + 1, h))
    decreases h
  {
    LeavesInside(i, h, top);
    LeafLevel(i, h, top);
    if 0 < h {
      ChildLevels(i, h, top);
      NodeSum(v, 2 * i + 1, h - 1, top);
      NodeSum(v, 2 * i + 2, h - 1, top);
      SumSplit(v, FirstLeaf(i, h), FirstLeaf(2 * i + 2, h - 1), FirstLeaf(i + 1, h));
      assert IsSum(v, i);
    } else {
      assert Sum(v, i, i + 1) == Sum(v, i, i) + v[i];
    }
  }

  // ----- linear search by prefix sum -----

  /** Item r in the order of the cells from lo on: its cell and its number within the cell. */
  datatype Place = Place(leaf: int, k: int)

  function Locate(v: seq<int>, lo: int, hi: int, r: int): (p: Place)
    requires 0 <= lo <= hi <= |v| && Natural(v) && 0 <= r < Sum(v, lo, hi)
    ensures lo <= p.leaf < hi && 0 <= p.k < v[p.leaf]
    ensures r == Sum(v, lo, p.leaf) + p.k
    decreases hi - lo
  {
    if r < Sum(v, lo, hi - 1) then Locate(v, lo, hi - 1, r)
    else Place(hi - 1, r - Sum(v, lo, hi - 1))
  }

  /** The prefix sum determines the place. */
  lemma {:induction false} LocateUnique(v: seq<int>, lo: int, hi: int, leaf: int, k: int)
    requires 0 <= lo <= leaf < hi <= |v| && Natural(v) && 0 <= k < v[leaf]
    ensures 0 <= Sum(v, lo, leaf) + k < Sum(v, lo, hi)
    ensures Locate(v, lo, hi, Sum(v, lo, leaf) + k) == Place(leaf, k)
    decreases hi
  {
    SumNatural(v, lo, leaf);
    if leaf < hi - 1 {
      LocateUnique(v, lo, hi - 1, leaf, k);
    }
  }
}
