/** The first variant of parallel_partition.h: strided local partitions become one partition. */
module TreePartition {
  import opened Orders
  import opened SumTree
  import opened ArrayTree
  import opened Strides

  // ----- which cells are misplaced -----

  function Excess(x: int, y: int): nat {
    if x >= y then x - y else 0
  }

  /** The counts the threads leave in the tree: sz of local left sizes, of which ml lie beyond the
      cut and mr are missing below it; leaves without a thread count nothing. */
  ghost predicate Counted(p: int, n: int, top: nat, sz: seq<int>, ml: seq<int>, mr: seq<int>, total: int) {
    && 0 < p <= Pow2(top) && 0 <= total <= n
    && Summed(sz, top) && Summed(ml, top) && Summed(mr, top) && sz[0] == total
    && (forall k :: Pow2(top) - 1 <= k < Pow2(top) - 1 + p ==>
          && sz[k] <= Share(p, n, k - (Pow2(top) - 1))
          && ml[k] == Excess(sz[k], Share(p, total, k - (Pow2(top) - 1)))
          && mr[k] == Excess(Share(p, total, k - (Pow2(top) - 1)), sz[k]))
    && (forall k :: Pow2(top) - 1 + p <= k < |sz| ==> sz[k] == 0 && ml[k] == 0 && mr[k] == 0)
  }

  /** Each stride is partitioned at its own local size. */
  ghost predicate LocallySplit<T(!new)>(pred: T -> bool, s: seq<T>, p: int, top: nat, sz: seq<int>) {
    && 0 < p <= Pow2(top) && |sz| == 2 * Pow2(top) - 1
    && (forall x :: 0 <= x < |s| ==> (pred(s[x]) <==> Row(p, x) < sz[Pow2(top) - 1 + Col(p, x)]))
  }

  lemma CountedTotal(p: int, n: int, top: nat, sz: seq<int>, ml: seq<int>, mr: seq<int>, total: int)
    requires Counted(p, n, top, sz, ml, mr, total)
    ensures 0 <= total <= n
  {
  }

  lemma CountedAt(p: int, n: int, top: nat, sz: seq<int>, ml: seq<int>, mr: seq<int>, total: int, k: int)
    requires Counted(p, n, top, sz, ml, mr, total) && 0 <= k < p
    ensures 0 < p <= Pow2(top) && Summed(sz, top) && Summed(ml, top) && Summed(mr, top)
    ensures 0 <= Pow2(top) - 1 + k < |sz| == |ml| == |mr|
    ensures var leaf := Pow2(top) - 1 + k;
            && sz[leaf] <= Share(p, n, k)
            && ml[leaf] == Excess(sz[leaf], Share(p, total, k)) && mr[leaf] == Excess(Share(p, total, k), sz[leaf])
  {
  }

  lemma SplitAt<T(!new)>(pred: T -> bool, s: seq<T>, p: int, top: nat, sz: seq<int>, x: int)
    requires LocallySplit(pred, s, p, top, sz) && 0 <= x < |s|
    ensures 0 < p <= Pow2(top) && 0 <= Col(p, x) < p && |sz| == 2 * Pow2(top) - 1
    ensures pred(s[x]) <==> Row(p, x) < sz[Pow2(top) - 1 + Col(p, x)]
  {
  }

  lemma {:induction false} MissingIsExcess(p: int, n: int, top: nat, sz: seq<int>, ml: seq<int>, mr: seq<int>, total: int, k: int)
    requires Counted(p, n, top, sz, ml, mr, total) && Pow2(top) - 1 <= k <= |sz|
    ensures var f := Pow2(top) - 1;
            Sum(sz, f, k) - ShareSum(p, total, if k - f < p then k - f else p) == Sum(ml, f, k) - Sum(mr, f, k)
    decreases k
  {
    if Pow2(top) - 1 < k {
      MissingIsExcess(p, n, top, sz, ml, mr, total, k - 1);
    }
  }

  /** As many elements are misplaced on the left as on the right. */
  lemma Balanced(p: int, n: int, top: nat, sz: seq<int>, ml: seq<int>, mr: seq<int>, total: int)
    requires Counted(p, n, top, sz, ml, mr, total)
    ensures ml[0] == mr[0] >= 0
  {
    MissingIsExcess(p, n, top, sz, ml, mr, total, |sz|);
    SharesAddUp(p, total);
    Total(sz, top);
    Total(ml, top);
    Total(mr, top);
  }

  /** The cell of the r-th misplaced element below the cut. */
  ghost function RightCell(p: int, top: nat, sz: seq<int>, mr: seq<int>, r: int): int
    requires Summed(sz, top) && Summed(mr, top) && 0 <= r < mr[0]
  {
    var q := Item(mr, top, r);
    Pos(p, q.leaf - (Pow2(top) - 1), sz[q.leaf] + q.k)
  }

  /** The cell of the r-th misplaced element at or above the cut. */
  ghost function LeftCell(p: int, top: nat, sz: seq<int>, ml: seq<int>, r: int): int
    requires Summed(sz, top) && Summed(ml, top) && 0 <= r < ml[0]
  {
    var q := Item(ml, top, r);
    Pos(p, q.leaf - (Pow2(top) - 1), sz[q.leaf] - ml[q.leaf] + q.k)
  }

  lemma RightCellIs<T(!new)>(pred: T -> bool, s: seq<T>, p: int, top: nat, sz: seq<int>, ml: seq<int>, mr: seq<int>, total: int, r: int)
    requires Counted(p, |s|, top, sz, ml, mr, total) && LocallySplit(pred, s, p, top, sz) && 0 <= r < mr[0]
    ensures var x, q := RightCell(p, top, sz, mr, r), Item(mr, top, r);
            && 0 <= x < total && !pred(s[x])
            && Col(p, x) == q.leaf - (Pow2(top) - 1) && Row(p, x) == sz[q.leaf] + q.k
  {
    hide Row, Col, Pos;
    var q := Item(mr, top, r);
    var id := q.leaf - (Pow2(top) - 1);
    PosDivMod(p, id, sz[q.leaf] + q.k);
    PosBelow(p, total, id, sz[q.leaf] + q.k);
  }

  lemma LeftCellIs<T(!new)>(pred: T -> bool, s: seq<T>, p: int, top: nat, sz: seq<int>, ml: seq<int>, mr: seq<int>, total: int, r: int)
    requires Counted(p, |s|, top, sz, ml, mr, total) && LocallySplit(pred, s, p, top, sz) && 0 <= r < ml[0]
    ensures var x, q := LeftCell(p, top, sz, ml, r), Item(ml, top, r);
            && total <= x < |s| && pred(s[x])
            && Col(p, x) == q.leaf - (Pow2(top) - 1) && Row(p, x) == sz[q.leaf] - ml[q.leaf] + q.k
  {
    hide Row, Col, Pos;
    var q := Item(ml, top, r);
    var id := q.leaf - (Pow2(top) - 1);
    var j := sz[q.leaf] - ml[q.leaf] + q.k;
    assert ml[q.leaf] > 0 && 0 <= Share(p, total, id);
    PosDivMod(p, id, j);
    PosBelow(p, total, id, j);
    PosBelow(p, |s|, id, j);
  }

  /** Pair j exchanges the j-th misplaced cell below the cut with the j-th last one above it. */
  ghost function RightCells(p: int, top: nat, sz: seq<int>, mr: seq<int>): (c: seq<int>)
    requires Summed(sz, top) && Summed(mr, top)
    ensures |c| == mr[0] && forall j :: 0 <= j < |c| ==> c[j] == RightCell(p, top, sz, mr, j)
  {
    seq(mr[0], r requires 0 <= r < mr[0] => RightCell(p, top, sz, mr, r))
  }

  ghost function LeftCells(p: int, top: nat, sz: seq<int>, ml: seq<int>): (c: seq<int>)
    requires Summed(sz, top) && Summed(ml, top)
    ensures |c| == ml[0] && forall j :: 0 <= j < |c| ==> c[j] == LeftCell(p, top, sz, ml, ml[0] - 1 - j)
  {
    seq(ml[0], r requires 0 <= r < ml[0] => LeftCell(p, top, sz, ml, ml[0] - 1 - r))
  }

  lemma RightCellsDiffer<T(!new)>(pred: T -> bool, s: seq<T>, p: int, top: nat, sz: seq<int>, ml: seq<int>, mr: seq<int>,
                                  total: int, i: int, j: int)
    requires Counted(p, |s|, top, sz, ml, mr, total) && LocallySplit(pred, s, p, top, sz)
    requires 0 <= i < j < mr[0]
    ensures RightCell(p, top, sz, mr, i) != RightCell(p, top, sz, mr, j)
  {
    RightCellIs(pred, s, p, top, sz, ml, mr, total, i);
    RightCellIs(pred, s, p, top, sz, ml, mr, total, j);
    ItemRank(mr, top, i);
    ItemRank(mr, top, j);
  }

  lemma LeftCellsDiffer<T(!new)>(pred: T -> bool, s: seq<T>, p: int, top: nat, sz: seq<int>, ml: seq<int>, mr: seq<int>,
                                 total: int, i: int, j: int)
    requires Counted(p, |s|, top, sz, ml, mr, total) && LocallySplit(pred, s, p, top, sz)
    requires 0 <= i < j < ml[0]
    ensures LeftCell(p, top, sz, ml, i) != LeftCell(p, top, sz, ml, j)
  {
    LeftCellIs(pred, s, p, top, sz, ml, mr, total, i);
    LeftCellIs(pred, s, p, top, sz, ml, mr, total, j);
    ItemRank(ml, top, i);
    ItemRank(ml, top, j);
  }

  /** All pairs use different cells, so threads with different pairs never touch the same cell. */
  lemma CellsApart<T(!new)>(pred: T -> bool, s: seq<T>, p: int, top: nat, sz: seq<int>, ml: seq<int>, mr: seq<int>, total: int)
    requires Counted(p, |s|, top, sz, ml, mr, total) && LocallySplit(pred, s, p, top, sz)
    ensures Pairs(RightCells(p, top, sz, mr), LeftCells(p, top, sz, ml), |s|)
  {
    hide Row, Col, Pos, Share, RightCell, LeftCell;
    Balanced(p, |s|, top, sz, ml, mr, total);
    var rc, lc, m := RightCells(p, top, sz, mr), LeftCells(p, top, sz, ml), mr[0];
    forall j | 0 <= j < m
      ensures 0 <= rc[j] < total <= lc[j] < |s|
    {
      RightCellIs(pred, s, p, top, sz, ml, mr, total, j);
      LeftCellIs(pred, s, p, top, sz, ml, mr, total, m - 1 - j);
    }
    forall i, j | 0 <= i < j < m
      ensures rc[i] != rc[j] && lc[i] != lc[j]
    {
      RightCellsDiffer(pred, s, p, top, sz, ml, mr, total, i, j);
      LeftCellsDiffer(pred, s, p, top, sz, ml, mr, total, m - 1 - j, m - 1 - i);
    }
  }

  /** The pairs cover every misplaced cell below the cut ... */
  lemma MisplacedRight<T(!new)>(pred: T -> bool, s: seq<T>, p: int, top: nat, sz: seq<int>, ml: seq<int>, mr: seq<int>,
                                total: int, x: int)
    requires Counted(p, |s|, top, sz, ml, mr, total) && LocallySplit(pred, s, p, top, sz)
    requires 0 <= x < total && !pred(s[x])
    ensures x in RightCells(p, top, sz, mr)
  {
    hide Counted, LocallySplit, Row, Col, Pos, Sum, Summed, Share, RightCells, LeftCells;
    CountedTotal(p, |s|, top, sz, ml, mr, total);
    SplitAt(pred, s, p, top, sz, x);
    var id, j, leaf := Col(p, x), Row(p, x), Pow2(top) - 1 + Col(p, x);
    PosOf(p, x);
    CountedAt(p, |s|, top, sz, ml, mr, total, id);
    PosBelow(p, total, id, j);
    ItemIs(mr, top, leaf, j - sz[leaf]);
    assert RightCells(p, top, sz, mr)[Sum(mr, Pow2(top) - 1, leaf) + (j - sz[leaf])] == x;
  }

  /** ... and above it. */
  lemma MisplacedLeft<T(!new)>(pred: T -> bool, s: seq<T>, p: int, top: nat, sz: seq<int>, ml: seq<int>, mr: seq<int>,
                               total: int, x: int)
    requires Counted(p, |s|, top, sz, ml, mr, total) && LocallySplit(pred, s, p, top, sz)
    requires total <= x < |s| && pred(s[x])
    ensures x in LeftCells(p, top, sz, ml)
  {
    hide Counted, LocallySplit, Row, Col, Pos, Sum, Summed, Share, RightCells, LeftCells;
    CountedTotal(p, |s|, top, sz, ml, mr, total);
    SplitAt(pred, s, p, top, sz, x);
    var id, j, leaf := Col(p, x), Row(p, x), Pow2(top) - 1 + Col(p, x);
    PosOf(p, x);
    CountedAt(p, |s|, top, sz, ml, mr, total, id);
    PosBelow(p, total, id, j);
    var k := j - (sz[leaf] - ml[leaf]);
    ItemIs(ml, top, leaf, k);
    assert LeftCells(p, top, sz, ml)[ml[0] - 1 - (Sum(ml, Pow2(top) - 1, leaf) + k)] == x;
  }

  /** An exchanged pair is on its proper sides. */
  lemma PairPlaced<T(!new)>(pred: T -> bool, s: seq<T>, t: seq<T>, p: int, top: nat, sz: seq<int>, ml: seq<int>, mr: seq<int>,
                            total: int, done: set<int>, j: int)
    requires Counted(p, |s|, top, sz, ml, mr, total) && LocallySplit(pred, s, p, top, sz)
    requires Exchanged(s, t, RightCells(p, top, sz, mr), LeftCells(p, top, sz, ml), done)
    requires 0 <= j < mr[0] && j in done
    ensures ml[0] == mr[0]
    ensures var x, y := RightCells(p, top, sz, mr)[j], LeftCells(p, top, sz, ml)[j];
            0 <= x < total <= y < |t| && pred(t[x]) && !pred(t[y])
  {
    hide Row, Col, Pos, Share, RightCell, LeftCell;
    Balanced(p, |s|, top, sz, ml, mr, total);
    RightCellIs(pred, s, p, top, sz, ml, mr, total, j);
    LeftCellIs(pred, s, p, top, sz, ml, mr, total, mr[0] - 1 - j);
  }

  /** Once every pair is exchanged the strides form one partition with its cut at the total. */
  lemma OnePartition<T(!new)>(pred: T -> bool, s: seq<T>, t: seq<T>, p: int, top: nat, sz: seq<int>, ml: seq<int>, mr: seq<int>,
                              total: int, done: set<int>)
    requires Counted(p, |s|, top, sz, ml, mr, total) && LocallySplit(pred, s, p, top, sz) && ml[0] == mr[0]
    requires Exchanged(s, t, RightCells(p, top, sz, mr), LeftCells(p, top, sz, ml), done)
    requires forall j :: 0 <= j < mr[0] ==> j in done
    ensures forall x :: 0 <= x < |t| ==> (pred(t[x]) <==> x < total)
  {
    hide LocallySplit, RightCells, LeftCells, Share, Excess;
    var rc, lc := RightCells(p, top, sz, mr), LeftCells(p, top, sz, ml);
    forall x | 0 <= x < |t|
      ensures pred(t[x]) <==> x < total
    {
      if x < total && !pred(s[x]) {
        MisplacedRight(pred, s, p, top, sz, ml, mr, total, x);
      } else if total <= x && pred(s[x]) {
        MisplacedLeft(pred, s, p, top, sz, ml, mr, total, x);
      }
      if x in rc {
        var j :| 0 <= j < |rc| && rc[j] == x;
        PairPlaced(pred, s, t, p, top, sz, ml, mr, total, done, j);
      } else if x in lc {
        var j :| 0 <= j < |lc| && lc[j] == x;
        PairPlaced(pred, s, t, p, top, sz, ml, mr, total, done, j);
      }
    }
  }
}
