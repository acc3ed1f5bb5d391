/** The cache-oblivious transposes of transpose.h, on matrices stored row by row. */
module Transpose {
  import opened Strides
  import opened SumTree

  /** Cell x of the transposed matrix (cLength cells per row) lies in the given rows and columns of
      the original. */
  predicate InBlock(x: int, cLength: int, rStart: int, rCount: int, cStart: int, cCount: int)
    requires 0 < cLength
  {
    rStart <= Col(cLength, x) < rStart + rCount && cStart <= Row(cLength, x) < cStart + cCount
  }

  /** The cell of the original matrix that belongs in cell x of the transposed one. */
  function Source(x: int, rLength: int, cLength: int): int
    requires 0 < cLength
  {
    Pos(rLength, Row(cLength, x), Col(cLength, x))
  }

  lemma PosInside(p: int, id: int, j: int, m: int)
    requires 0 <= id < p && 0 <= j < m
    ensures 0 <= Pos(p, id, j) < m * p
  {
    assert (m - j) * p == m * p - j * p;
    MulAtLeast(m - j, p);
    assert 0 <= j * p;
  }

  lemma RowInside(x: int, rLength: int, cLength: int)
    requires 0 < cLength && 0 < rLength && 0 <= x < rLength * cLength
    ensures 0 <= Row(cLength, x) < rLength
  {
    var q, r := x / cLength, x % cLength;
    assert x == q * cLength + r;
    assert (q - rLength) * cLength == q * cLength - rLength * cLength;
    MulAtLeast(q - rLength, cLength);
  }

  lemma SourceInside(x: int, rLength: int, cLength: int)
    requires 0 < cLength && 0 < rLength && 0 <= x < rLength * cLength
    ensures 0 <= Row(cLength, x) < rLength && 0 <= Source(x, rLength, cLength) < rLength * cLength
  {
    hide Row, Col, Pos;
    RowInside(x, rLength, cLength);
    PosInside(rLength, Row(cLength, x), Col(cLength, x), cLength);
  }

  lemma CellOf(i: int, j: int, rLength: int, cLength: int)
    requires 0 <= i < cLength && 0 <= j < rLength
    ensures 0 <= Pos(cLength, i, j) < rLength * cLength
    ensures Row(cLength, Pos(cLength, i, j)) == j && Col(cLength, Pos(cLength, i, j)) == i
    ensures Source(Pos(cLength, i, j), rLength, cLength) == Pos(rLength, j, i)
    ensures 0 <= Pos(rLength, j, i) < rLength * cLength
  {
    hide Row, Col, Pos;
    PosDivMod(cLength, i, j);
    PosInside(cLength, i, j, rLength);
    PosInside(rLength, j, i, cLength);
  }

  /** A matrix with a cell has a row and a column. */
  lemma NotEmpty(x: int, rLength: int, cLength: int)
    requires 0 <= rLength && 0 <= cLength && 0 <= x < rLength * cLength
    ensures 0 < rLength && 0 < cLength
  {
  }

  /** The block is transposed from v into w; all other cells are as in w0. */
  ghost predicate Transposed<T(!new)>(v: seq<T>, w0: seq<T>, w: seq<T>, rStart: int, rCount: int, rLength: int,
                                      cStart: int, cCount: int, cLength: int) {
    && 0 <= cLength && 0 <= rLength && |v| == |w| == |w0| == rLength * cLength
    && (forall x :: 0 <= x < |w| ==>
          && 0 < cLength && 0 <= Source(x, rLength, cLength) < |v|
          && w[x] == if InBlock(x, cLength, rStart, rCount, cStart, cCount) then v[Source(x, rLength, cLength)] else w0[x])
  }

  ghost predicate BlockBounds(rStart: int, rCount: int, rLength: int, cStart: int, cCount: int, cLength: int) {
    && 0 <= rStart && 0 <= rCount && rStart + rCount <= cLength
    && 0 <= cStart && 0 <= cCount && cStart + cCount <= rLength
  }

  lemma NothingTransposed<T(!new)>(v: seq<T>, w: seq<T>, rStart: int, rCount: int, rLength: int, cStart: int, cCount: int, cLength: int)
    requires 0 <= cLength && 0 <= rLength && |v| == |w| == rLength * cLength && (rCount == 0 || cCount == 0)
    ensures Transposed(v, w, w, rStart, rCount, rLength, cStart, cCount, cLength)
  {
    forall x | 0 <= x < |w|
      ensures 0 < cLength && 0 <= Source(x, rLength, cLength) < |v|
    {
      NotEmpty(x, rLength, cLength);
      SourceInside(x, rLength, cLength);
    }
  }

  /** Two adjacent blocks make one. */
  lemma BlocksJoin<T(!new)>(v: seq<T>, w0: seq<T>, w1: seq<T>, w2: seq<T>, rStart: int, r1: int, r2: int, rLength: int,
                            cStart: int, c1: int, c2: int, cLength: int, columns: bool)
    requires 0 <= r1 && 0 <= r2 && 0 <= c1 && 0 <= c2
    requires Transposed(v, w0, w1, rStart, r1, rLength, cStart, c1, cLength)
    requires if columns then r1 == r2 && Transposed(v, w1, w2, rStart, r1, rLength, cStart + c1, c2, cLength)
             else c1 == c2 && Transposed(v, w1, w2, rStart + r1, r2, rLength, cStart, c1, cLength)
    ensures if columns then Transposed(v, w0, w2, rStart, r1, rLength, cStart, c1 + c2, cLength)
            else Transposed(v, w0, w2, rStart, r1 + r2, rLength, cStart, c1, cLength)
  {
    hide Row, Col, Pos;
  }

  /** One cell moves. */
  lemma CellMoved<T(!new)>(v: seq<T>, w: seq<T>, i: int, j: int, rLength: int, cLength: int)
    requires 0 <= i < cLength && 0 <= j < rLength && |v| == |w| == rLength * cLength
    ensures 0 <= Pos(cLength, i, j) < |w| && 0 <= Pos(rLength, j, i) < |v|
    ensures Transposed(v, w, w[Pos(cLength, i, j) := v[Pos(rLength, j, i)]], i, 1, rLength, j, 1, cLength)
  {
    CellOf(i, j, rLength, cLength);
    forall x | 0 <= x < |w|
      ensures 0 <= Source(x, rLength, cLength) < |v|
      ensures InBlock(x, cLength, i, 1, j, 1) <==> x == Pos(cLength, i, j)
    {
      SourceInside(x, rLength, cLength);
      PosOf(cLength, x);
    }
  }

  /** Halves the longer side until the block is small, then moves its cells one by one. */
  method TransR<T(!new)>(a: array<T>, b: array<T>, rStart: int, rCount: int, rLength: int, cStart: int, cCount: int, cLength: int,
                         threshold: int)
    requires a != b && 0 <= rLength && 0 <= cLength && a.Length == b.Length == rLength * cLength && 2 <= threshold
    requires BlockBounds(rStart, rCount, rLength, cStart, cCount, cLength)
    modifies b
    ensures Transposed(a[..], old(b[..]), b[..], rStart, rCount, rLength, cStart, cCount, cLength)
    decreases rCount + cCount
  {
    hide Transposed, InBlock;
    ghost var v, w0 := a[..], b[..];
    if cCount < threshold && rCount < threshold {
      NothingTransposed(v, w0, rStart, 0, rLength, cStart, cCount, cLength);
      for i := rStart to rStart + rCount
        invariant a[..] == v && Transposed(v, w0, b[..], rStart, i - rStart, rLength, cStart, cCount, cLength)
      {
        TransRow(a, b, i, rLength, cStart, cCount, cLength, rStart, w0);
      }
    } else if cCount > rCount {
      var l1 := cCount / 2;
      var l2 := cCount - cCount / 2;
      TransR(a, b, rStart, rCount, rLength, cStart, l1, cLength, threshold);
      ghost var w1 := b[..];
      TransR(a, b, rStart, rCount, rLength, cStart + l1, l2, cLength, threshold);
      BlocksJoin(v, w0, w1, b[..], rStart, rCount, rCount, rLength, cStart, l1, l2, cLength, true);
    } else {
      var l1 := rCount / 2;
      var l2 := rCount - rCount / 2;
      TransR(a, b, rStart, l1, rLength, cStart, cCount, cLength, threshold);
      ghost var w1 := b[..];
      TransR(a, b, rStart + l1, l2, rLength, cStart, cCount, cLength, threshold);
      BlocksJoin(v, w0, w1, b[..], rStart, l1, l2, rLength, cStart, cCount, cCount, cLength, false);
    }
  }

  method TransRow<T(!new)>(a: array<T>, b: array<T>, i: int, rLength: int, cStart: int, cCount: int, cLength: int,
                           ghost rStart: int, ghost w0: seq<T>)
    requires a != b && 0 <= rLength && a.Length == b.Length == rLength * cLength
    requires 0 <= rStart <= i < cLength && 0 <= cStart && 0 <= cCount && cStart + cCount <= rLength
    requires Transposed(a[..], w0, b[..], rStart, i - rStart, rLength, cStart, cCount, cLength)
    modifies b
    ensures Transposed(a[..], w0, b[..], rStart, i + 1 - rStart, rLength, cStart, cCount, cLength)
  {
    hide Transposed, InBlock;
    ghost var v, w1 := a[..], b[..];
    NothingTransposed(v, w1, i, 1, rLength, cStart, 0, cLength);
    for j := cStart to cStart + cCount
      invariant a[..] == v && Transposed(v, w1, b[..], i, 1, rLength, cStart, j - cStart, cLength)
    {
      ghost var w := b[..];
      CellMoved(v, w, i, j, rLength, cLength);
      b[Pos(cLength, i, j)] := a[Pos(rLength, j, i)];
      BlocksJoin(v, w1, w, b[..], i, 1, 1, rLength, cStart, j - cStart, 1, cLength, true);
    }
    BlocksJoin(v, w0, w1, b[..], rStart, i - rStart, 1, rLength, cStart, cCount, cCount, cLength, false);
  }

  /** The whole transpose: cell (i, j) of an rCount by cCount matrix arrives at (j, i). */
  method Trans<T(!new)>(a: array<T>, b: array<T>, rCount: int, cCount: int, threshold: int)
    requires a != b && 0 <= rCount && 0 <= cCount && a.Length == b.Length == cCount * rCount && 2 <= threshold
    modifies b
    ensures forall x :: 0 <= x < b.Length ==> 0 < rCount && 0 <= Source(x, cCount, rCount) < a.Length && b[x] == a[Source(x, cCount, rCount)]
    ensures forall i, j :: 0 <= i < rCount && 0 <= j < cCount ==>
              && 0 <= Pos(rCount, i, j) < b.Length && 0 <= Pos(cCount, j, i) < a.Length
              && b[Pos(rCount, i, j)] == a[Pos(cCount, j, i)]
  {
    TransR(a, b, 0, rCount, cCount, 0, cCount, rCount, threshold);
    forall x | 0 <= x < b.Length
      ensures 0 < rCount && InBlock(x, rCount, 0, rCount, 0, cCount)
    {
      NotEmpty(x, cCount, rCount);
      SourceInside(x, cCount, rCount);
    }
    forall i, j | 0 <= i < rCount && 0 <= j < cCount
      ensures 0 <= Pos(rCount, i, j) < b.Length && 0 <= Pos(cCount, j, i) < a.Length
      ensures Source(Pos(rCount, i, j), cCount, rCount) == Pos(cCount, j, i)
    {
      CellOf(i, j, cCount, rCount);
    }
  }
}
