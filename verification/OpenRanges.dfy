/** Disjoint ranges on a stack, each cut off from the rest of the array, that remain to be sorted. */
module OpenRanges {
  import opened Orders
  import opened PdqPartition
  import opened SumTree

  /** Nothing from c on is less than anything before c. */
  ghost predicate Cut<T(!new)>(lt: (T, T) -> bool, s: seq<T>, c: int) {
    forall i, k :: 0 <= i < c <= k < |s| ==> !lt(s[k], s[i])
  }

  datatype StackNode = StackNode(lo: int, hi: int)

  /** A range still to be sorted: cut off from both sides, its ends at least `least` apart. */
  ghost predicate Open<T(!new)>(lt: (T, T) -> bool, s: seq<T>, r: StackNode, least: int) {
    && 0 <= r.lo && r.hi < |s| && least <= r.hi - r.lo
    && Cut(lt, s, r.lo) && Cut(lt, s, r.hi + 1)
  }

  ghost predicate Covers(r: StackNode, i: int, k: int) {
    r.lo <= i && k <= r.hi
  }

  ghost predicate Separated<T(!new)>(lt: (T, T) -> bool, s: seq<T>, i: int, k: int) {
    exists c :: i < c <= k && Cut(lt, s, c)
  }

  /** A cut lies between any two cells more than `far` apart unless one pending range holds both. */
  ghost predicate Near<T(!new)>(lt: (T, T) -> bool, s: seq<T>, pending: seq<StackNode>, far: int) {
    forall i, k :: 0 <= i < k && i + far < k < |s| ==>
      Separated(lt, s, i, k) || exists r :: r in pending && Covers(r, i, k)
  }

  /** Cells more than `far` apart are in order. */
  ghost predicate FarOrdered<T(!new)>(lt: (T, T) -> bool, s: seq<T>, far: int) {
    forall i, k :: 0 <= i < k && i + far < k < |s| ==> !lt(s[k], s[i])
  }

  lemma NearOrdered<T(!new)>(lt: (T, T) -> bool, s: seq<T>, far: int)
    requires Near(lt, s, [], far)
    ensures FarOrdered(lt, s, far)
  {
    forall i, k | 0 <= i < k && i + far < k < |s|
      ensures !lt(s[k], s[i])
    {
      assert Separated(lt, s, i, k);
    }
  }

  /** Without pending ranges the cuts divide the array into consecutive segments of at most far + 1
      cells, nothing in a later one being less than anything in an earlier one. */
  ghost predicate Segmented<T(!new)>(lt: (T, T) -> bool, s: seq<T>, bounds: seq<int>, far: int) {
    && bounds != [] && bounds[|bounds| - 1] == |s|
    && (forall j :: 0 <= j < |bounds| ==> Cut(lt, s, bounds[j]))
    && (forall j, l :: 0 <= j && l == j + 1 && l < |bounds| ==> bounds[j] < bounds[l] <= bounds[j] + far + 1)
  }

  lemma {:induction false} CutIntoSegments<T(!new)>(lt: (T, T) -> bool, s: seq<T>, far: int, b: int) returns (bounds: seq<int>)
    requires Near(lt, s, [], far) && 0 <= far && 0 <= b <= |s| && Cut(lt, s, b)
    ensures Segmented(lt, s, bounds, far) && bounds[0] == b
    decreases |s| - b
  {
    if b == |s| {
      bounds := [b];
    } else {
      var c := |s|;
      if b + far + 1 < |s| {
        assert Separated(lt, s, b, b + far + 1);
        c :| b < c <= b + far + 1 && Cut(lt, s, c);
      }
      assert Cut(lt, s, |s|);
      var rest := CutIntoSegments(lt, s, far, c);
      bounds := [b] + rest;
    }
  }

  /** Pending ranges are open and disjoint, and the j-th has at most n / 2^j cells. */
  ghost predicate Stacked<T(!new)>(lt: (T, T) -> bool, s: seq<T>, pending: seq<StackNode>, least: int) {
    && (forall j :: 0 <= j < |pending| ==> Open(lt, s, pending[j], least) && Fits(|s|, pending[j], j))
    && (forall i, j :: 0 <= i < j < |pending| ==> pending[i].hi < pending[j].lo || pending[j].hi < pending[i].lo)
  }

  ghost predicate Fits(n: int, r: StackNode, j: nat) {
    Pow2(j) * (r.hi - r.lo + 1) <= n
  }

  // ----- what a partition step keeps -----

  lemma CutKept<T(!new)>(lt: (T, T) -> bool, s: seq<T>, t: seq<T>, lo: int, hi: int, c: int)
    requires Permuted(s, t, lo, hi + 1) && Cut(lt, s, c) && (c <= lo || hi < c)
    ensures Cut(lt, t, c)
  {
    forall i, k | 0 <= i < c <= k < |t|
      ensures !lt(t[k], t[i])
    {
      var i', k' := i, k;
      if lo <= i <= hi { i' := PermutedFrom(s, t, lo, hi + 1, i); }
      if lo <= k <= hi { k' := PermutedFrom(s, t, lo, hi + 1, k); }
      assert !lt(s[k'], s[i']);
    }
  }

  /** A wall inside a range that is cut off cuts the whole array. */
  lemma NewCut<T(!new)>(lt: (T, T) -> bool, s: seq<T>, lo: int, hi: int, c: int, p: T)
    requires StrictWeak(lt) && 0 <= lo <= c <= hi + 1 <= |s|
    requires Cut(lt, s, lo) && Cut(lt, s, hi + 1)
    requires NoneMore(lt, s, lo, c, p) && NoneLess(lt, s, c, hi + 1, p)
    ensures Cut(lt, s, c)
  {
    forall i, k | 0 <= i < c <= k < |s|
      ensures !lt(s[k], s[i])
    {
      if lo <= i && k <= hi {
        NotLessTrans(lt, s[k], p, s[i]);
      }
    }
  }

  lemma StackedKept<T(!new)>(lt: (T, T) -> bool, s: seq<T>, t: seq<T>, rest: seq<StackNode>, cur: StackNode, least: int)
    requires Stacked(lt, s, rest + [cur], least) && Permuted(s, t, cur.lo, cur.hi + 1) && -1 <= least
    ensures Stacked(lt, t, rest + [cur], least)
  {
    var all := rest + [cur];
    assert all[|rest|] == cur;
    forall j | 0 <= j < |all|
      ensures Open(lt, t, all[j], least) && Fits(|t|, all[j], j)
    {
      assert Open(lt, s, all[j], least) && Fits(|s|, all[j], j);
      CutKept(lt, s, t, cur.lo, cur.hi, all[j].lo);
      CutKept(lt, s, t, cur.lo, cur.hi, all[j].hi + 1);
    }
  }

  lemma StackedDrop<T(!new)>(lt: (T, T) -> bool, s: seq<T>, rest: seq<StackNode>, cur: StackNode, least: int)
    requires Stacked(lt, s, rest + [cur], least)
    ensures Stacked(lt, s, rest, least)
  {
    forall j | 0 <= j < |rest|
      ensures Open(lt, s, rest[j], least) && Fits(|s|, rest[j], j)
    {
      assert (rest + [cur])[j] == rest[j];
    }
    forall i, j | 0 <= i < j < |rest|
      ensures rest[i].hi < rest[j].lo || rest[j].hi < rest[i].lo
    {
      assert (rest + [cur])[i] == rest[i] && (rest + [cur])[j] == rest[j];
    }
  }

  /** The current range may shrink. */
  lemma StackedShrink<T(!new)>(lt: (T, T) -> bool, s: seq<T>, rest: seq<StackNode>, cur: StackNode, r: StackNode, least: int)
    requires Stacked(lt, s, rest + [cur], least) && cur.lo <= r.lo && r.hi <= cur.hi && Open(lt, s, r, least)
    ensures Stacked(lt, s, rest + [r], least)
  {
    var old_, all := rest + [cur], rest + [r];
    forall j | 0 <= j < |all|
      ensures Open(lt, s, all[j], least) && Fits(|s|, all[j], j)
    {
      assert Open(lt, s, old_[j], least) && Fits(|s|, old_[j], j);
      if j == |rest| {
        FitsLess(|s|, cur, r, j);
      }
    }
    forall i, j | 0 <= i < j < |all|
      ensures all[i].hi < all[j].lo || all[j].hi < all[i].lo
    {
      assert old_[i].hi < old_[j].lo || old_[j].hi < old_[i].lo;
    }
  }

  lemma MulMonotone(m: int, x: int, y: int)
    requires 0 <= m && x <= y
    ensures m * x <= m * y
  {
    assert m * (y - x) >= 0;
  }

  lemma MulTwice(m: int, d: int)
    ensures (2 * m) * d == m * (2 * d)
  {
  }

  lemma FitsLess(n: int, cur: StackNode, r: StackNode, j: nat)
    requires Fits(n, cur, j) && r.hi - r.lo <= cur.hi - cur.lo
    ensures Fits(n, r, j)
  {
    MulMonotone(Pow2(j), r.hi - r.lo + 1, cur.hi - cur.lo + 1);
  }

  lemma FitsHalf(n: int, cur: StackNode, r: StackNode, j: nat)
    requires Fits(n, cur, j) && 2 * (r.hi - r.lo + 1) <= cur.hi - cur.lo + 1
    ensures Fits(n, r, j + 1)
  {
    var c, d, m := cur.hi - cur.lo + 1, r.hi - r.lo + 1, Pow2(j);
    MulMonotone(m, 2 * d, c);
    MulTwice(m, d);
  }

  /** The larger half is stacked and the smaller one, at most half as long, becomes current. */
  lemma StackedSplit<T(!new)>(lt: (T, T) -> bool, s: seq<T>, rest: seq<StackNode>, cur: StackNode, big: StackNode, small: StackNode, least: int)
    requires Stacked(lt, s, rest + [cur], least)
    requires cur.lo <= big.lo && big.hi <= cur.hi && cur.lo <= small.lo && small.hi <= cur.hi
    requires big.hi < small.lo || small.hi < big.lo
    requires Open(lt, s, big, least) && Open(lt, s, small, least) && 2 * (small.hi - small.lo + 1) <= cur.hi - cur.lo + 1
    ensures Stacked(lt, s, rest + [big] + [small], least)
  {
    StackedShrink(lt, s, rest, cur, big, least);
    StackedShrink(lt, s, rest, cur, small, least);
    var one, two, all := rest + [big], rest + [small], rest + [big] + [small];
    assert (rest + [cur])[|rest|] == cur;
    FitsHalf(|s|, cur, small, |rest|);
    forall j | 0 <= j < |all|
      ensures Open(lt, s, all[j], least) && Fits(|s|, all[j], j)
    {
      assert j <= |rest| ==> Open(lt, s, one[j], least) && Fits(|s|, one[j], j);
    }
    forall i, j | 0 <= i < j < |all|
      ensures all[i].hi < all[j].lo || all[j].hi < all[i].lo
    {
      if j <= |rest| {
        assert one[i].hi < one[j].lo || one[j].hi < one[i].lo;
      } else if i < |rest| {
        assert two[i].hi < two[|rest|].lo || two[|rest|].hi < two[i].lo;
      }
    }
  }

  /** Partitioning the current range leaves far pairs separated or in one of the parts kept; the cells
      between the walls are in order already. */
  lemma NearStep<T(!new)>(lt: (T, T) -> bool, s: seq<T>, t: seq<T>, rest: seq<StackNode>, cur: StackNode,
                          left: int, right: int, pending: seq<StackNode>, least: int, far: int)
    requires Near(lt, s, rest + [cur], far) && Open(lt, t, cur, least) && Permuted(s, t, cur.lo, cur.hi + 1) && 0 <= far
    requires cur.lo <= right + 1 <= left <= cur.hi + 1 && Cut(lt, t, left) && Cut(lt, t, right + 1)
    requires Sorted(lt, t, right + 1, left)
    requires forall r :: r in rest ==> r in pending
    requires far < right - cur.lo ==> StackNode(cur.lo, right) in pending
    requires far < cur.hi - left ==> StackNode(left, cur.hi) in pending
    ensures Near(lt, t, pending, far)
  {
    hide Cut;
    forall i, k | 0 <= i && i + far < k < |t|
      ensures Separated(lt, t, i, k) || exists r :: r in pending && Covers(r, i, k)
    {
      if cur.lo <= i && k <= cur.hi {
        if k <= right {
          assert Covers(StackNode(cur.lo, right), i, k);
        } else if left <= i {
          assert Covers(StackNode(left, cur.hi), i, k);
        } else if right < i && k < left {
          SortedCut(lt, t, right + 1, left, k);
        } else {
          assert i < left <= k || i < right + 1 <= k;
        }
      } else if (cur.lo <= i <= cur.hi) || (cur.lo <= k <= cur.hi) {
        assert i < cur.lo <= k || i < cur.hi + 1 <= k;
      } else {
        FarKept(lt, s, t, rest, cur, pending, least, far, i, k);
      }
    }
  }

  /** A sorted range between two cuts is cut everywhere. */
  lemma SortedCut<T(!new)>(lt: (T, T) -> bool, s: seq<T>, lo: int, hi: int, c: int)
    requires 0 <= lo <= c <= hi <= |s| && Sorted(lt, s, lo, hi) && Cut(lt, s, lo) && Cut(lt, s, hi)
    ensures Cut(lt, s, c)
  {
  }

  lemma FarKept<T(!new)>(lt: (T, T) -> bool, s: seq<T>, t: seq<T>, rest: seq<StackNode>, cur: StackNode,
                         pending: seq<StackNode>, least: int, far: int, i: int, k: int)
    requires Near(lt, s, rest + [cur], far) && Open(lt, t, cur, least) && Permuted(s, t, cur.lo, cur.hi + 1)
    requires forall r :: r in rest ==> r in pending
    requires 0 <= i && i + far < k < |t| && 0 <= far && !(cur.lo <= i <= cur.hi) && !(cur.lo <= k <= cur.hi)
    ensures Separated(lt, t, i, k) || exists r :: r in pending && Covers(r, i, k)
  {
    hide Cut;
    if i < cur.lo <= k {
    } else if r :| r in rest + [cur] && Covers(r, i, k) {
      assert r in pending && Covers(r, i, k);
    } else {
      assert Separated(lt, s, i, k);
      var c :| i < c <= k && Cut(lt, s, c);
      CutKept(lt, s, t, cur.lo, cur.hi, c);
    }
  }

  /** The stacked ranges above the dummy and the current one. */
  ghost function Pending(stack: seq<StackNode>, top: int, lo: int, hi: int): seq<StackNode>
    requires 0 <= top <= |stack|
  {
    if top == 0 then [] else stack[1..top] + [StackNode(lo, hi)]
  }

  lemma OpenPart<T(!new)>(lt: (T, T) -> bool, s: seq<T>, r: StackNode, least: int)
    requires 0 <= r.lo && r.hi < |s| && least <= r.hi - r.lo && Cut(lt, s, r.lo) && Cut(lt, s, r.hi + 1)
    ensures Open(lt, s, r, least)
  {
  }

  function Weight(pending: seq<StackNode>, unit: int): int
  {
    if pending == [] then 0
    else var r := pending[|pending| - 1]; Weight(pending[..|pending| - 1], unit) + 2 * (r.hi - r.lo) + unit
  }

  lemma WeightPush(rest: seq<StackNode>, r: StackNode, unit: int)
    ensures Weight(rest + [r], unit) == Weight(rest, unit) + 2 * (r.hi - r.lo) + unit
  {
    assert (rest + [r])[..|rest|] == rest;
  }

  lemma {:induction false} WeightNatural<T(!new)>(lt: (T, T) -> bool, s: seq<T>, pending: seq<StackNode>, least: int, unit: int)
    requires 0 <= 2 * least + unit && forall j :: 0 <= j < |pending| ==> Open(lt, s, pending[j], least)
    ensures Weight(pending, unit) >= 0
  {
    if pending != [] {
      WeightNatural(lt, s, pending[..|pending| - 1], least, unit);
      assert Open(lt, s, pending[|pending| - 1], least);
    }
  }
}
