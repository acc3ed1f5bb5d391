/** When the reverse scan of sequence.h is one: its blocks are reduced from left to right, so the
    blocked reverse scan agrees with the serial one for commutative operations and no others. */
module BackScan {
  import opened Sequence

  ghost predicate IsUnit<T(!new)>(f: (T, T) -> T, unit: T) {
    forall x :: f(unit, x) == x && f(x, unit) == x
  }

  /** On every input and in every cell the blocked reverse scan leaves what the serial one leaves. */
  ghost predicate BackAgrees<T(!new)>(f: (T, T) -> T, zero: T, bsize: int)
    requires 1 < bsize
  {
    forall v: seq<T>, inclusive: bool, i: int :: 0 <= i < |v| ==>
      ScanOf(f, zero, v, 0, |v|, inclusive, true, bsize, i) == Scanned(f, zero, v, 0, |v|, inclusive, true, i)
  }

  /** Two full blocks and one cell, all units but x and y at the start of the second block. */
  function TwoInBlock<T>(x: T, y: T, unit: T, bsize: int): (v: seq<T>)
    requires 1 < bsize
    ensures |v| == 2 * bsize + 1
  {
    seq(2 * bsize + 1, k => if k == bsize then x else if k == bsize + 1 then y else unit)
  }

  lemma {:induction false} FoldUnits<T(!new)>(f: (T, T) -> T, unit: T, z: T, v: seq<T>, lo: int, hi: int)
    requires IsUnit(f, unit) && 0 <= lo <= hi <= |v| && forall k :: lo <= k < hi ==> v[k] == unit
    ensures Fold(f, z, v, lo, hi) == z && FoldBack(f, z, v, lo, hi) == z
    decreases hi - lo
  {
    if lo < hi {
      FoldUnits(f, unit, z, v, lo, hi - 1);
      FoldUnits(f, unit, z, v, lo + 1, hi);
    }
  }

  /** The block that holds x and y reduces to x with y ... */
  lemma SecondBlock<T(!new)>(f: (T, T) -> T, unit: T, x: T, y: T, bsize: int)
    requires IsUnit(f, unit) && 1 < bsize
    ensures Reduction(f, TwoInBlock(x, y, unit, bsize), bsize, 2 * bsize) == f(x, y)
  {
    var v := TwoInBlock(x, y, unit, bsize);
    FoldSplit(f, x, v, bsize + 1, bsize + 2, 2 * bsize);
    assert Fold(f, x, v, bsize + 1, bsize + 1) == x;
    assert Fold(f, x, v, bsize + 1, bsize + 2) == f(x, y);
    FoldUnits(f, unit, f(x, y), v, bsize + 2, 2 * bsize);
  }

  /** ... and so does the offset of the block before it ... */
  lemma FirstOffset<T(!new)>(f: (T, T) -> T, unit: T, x: T, y: T, bsize: int)
    requires IsUnit(f, unit) && 1 < bsize
    ensures ScanOf(f, unit, TwoInBlock(x, y, unit, bsize), 0, 2 * bsize + 1, false, true, bsize, bsize - 1) == f(x, y)
  {
    var v := TwoInBlock(x, y, unit, bsize);
    ThreeBlocks(bsize);
    var w := BlockSums(f, v, 0, 2 * bsize + 1, bsize);
    assert IsReduction(f, v, 0, 2 * bsize + 1, bsize, w, 1) && IsReduction(f, v, 0, 2 * bsize + 1, bsize, w, 2);
    SecondBlock(f, unit, x, y, bsize);
    assert w[1] == f(x, y) && w[2] == unit;
    assert FoldBack(f, unit, w, 3, 3) == unit && FoldBack(f, unit, w, 2, 3) == unit;
    assert Scanned(f, unit, w, 0, 3, false, true, 0) == f(x, y);
  }

  lemma ThreeBlocks(bsize: int)
    requires 1 < bsize
    ensures NBlocks(2 * bsize + 1, bsize) == 3 && NBlocks(3, bsize) <= 2
    ensures BlockOf(0, bsize, bsize - 1) == 0 && BlockStart(0, bsize, 0) == 0 && BlockEnd(0, 2 * bsize + 1, bsize, 0) == bsize
    ensures BlockStart(0, bsize, 1) == bsize && BlockEnd(0, 2 * bsize + 1, bsize, 1) == 2 * bsize
    ensures BlockStart(0, bsize, 2) == 2 * bsize && BlockEnd(0, 2 * bsize + 1, bsize, 2) == 2 * bsize + 1
  {
    BlockOfCell(0, 2 * bsize + 1, bsize, 0, bsize - 1);
    assert 2 * bsize / bsize == 2;
    assert 2 / bsize <= 1;
  }

  /** ... where the serial scan has y with x. */
  lemma SerialOffset<T(!new)>(f: (T, T) -> T, unit: T, x: T, y: T, bsize: int)
    requires IsUnit(f, unit) && 1 < bsize
    ensures Scanned(f, unit, TwoInBlock(x, y, unit, bsize), 0, 2 * bsize + 1, false, true, bsize - 1) == f(y, x)
  {
    var v := TwoInBlock(x, y, unit, bsize);
    FoldUnits(f, unit, unit, v, bsize + 2, 2 * bsize + 1);
    assert FoldBack(f, unit, v, bsize + 1, 2 * bsize + 1) == y;
  }

  /** For an associative operation with a unit, and any block size, the reverse scan is correct on
      all inputs exactly if the operation is commutative. */
  lemma BackScanExact<T(!new)>(f: (T, T) -> T, unit: T, bsize: int)
    requires Associative(f) && IsUnit(f, unit) && 1 < bsize
    ensures BackAgrees(f, unit, bsize) <==> Commutative(f)
  {
    if BackAgrees(f, unit, bsize) {
      forall x, y
        ensures f(x, y) == f(y, x)
      {
        var v := TwoInBlock(x, y, unit, bsize);
        FirstOffset(f, unit, x, y, bsize);
        SerialOffset(f, unit, x, y, bsize);
        assert ScanOf(f, unit, v, 0, |v|, false, true, bsize, bsize - 1) == Scanned(f, unit, v, 0, |v|, false, true, bsize - 1);
      }
    }
    if Commutative(f) {
      forall v: seq<T>, inclusive: bool, i: int | 0 <= i < |v|
        ensures ScanOf(f, unit, v, 0, |v|, inclusive, true, bsize, i) == Scanned(f, unit, v, 0, |v|, inclusive, true, i)
      {
        BackwardAgrees(f, unit, v, 0, |v|, inclusive, bsize, i);
      }
    }
  }

  function Join(): (string, string) -> string {
    (x, y) => x + y
  }

  /** Joining texts has a unit and is associative; scanned in reverse, block by block, it fails. */
  lemma TextsFail(bsize: int)
    requires 1 < bsize
    ensures Associative(Join()) && IsUnit(Join(), "") && !BackAgrees(Join(), "", bsize)
  {
    forall x, y, z {:trigger Three(x, y, z)}
      ensures Join()(Join()(x, y), z) == Join()(x, Join()(y, z))
    {
      assert (x + y) + z == x + (y + z);
    }
    forall x
      ensures Join()("", x) == x && Join()(x, "") == x
    {
      assert "" + x == x && x + "" == x;
    }
    BackScanExact(Join(), "", bsize);
    assert Join()("a", "b")[0] == 'a' && Join()("b", "a")[0] == 'b';
  }
}
