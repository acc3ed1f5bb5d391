/** The block transpose of transpose.h: a matrix of pieces of different lengths, stored one after
    another row by row, is rearranged column by column. */
module BlockTranspose {
  import opened Strides
  import opened SumTree
  import opened Transpose

  // ----- the pieces and their bags -----

  /** All pieces of the first row rows, and of that row the first col ones. */
  ghost function Bag<T(!new)>(g: (int, int) -> multiset<T>, width: int, row: int, col: int): multiset<T>
    requires 0 <= row && 0 <= col <= width
    decreases row, col
  {
    if col > 0 then Bag(g, width, row, col - 1) + g(row, col - 1)
    else if row > 0 then Bag(g, width, row - 1, width)
    else multiset{}
  }

  ghost function Flip<T(!new)>(g: (int, int) -> multiset<T>): (int, int) -> multiset<T> {
    (j, i) => g(i, j)
  }

  /** One more column adds its cells. */
  lemma {:induction false} WiderBag<T(!new)>(g: (int, int) -> multiset<T>, width: int, row: int, col: int)
    requires 0 <= row && 0 <= col <= width
    ensures Bag(g, width + 1, row, col) == Bag(g, width, row, col) + ColumnBag(g, width, row)
    decreases row, col
  {
    if col > 0 {
      WiderBag(g, width, row, col - 1);
    } else if row > 0 {
      WiderBag(g, width, row - 1, width);
      assert Bag(g, width + 1, row - 1, width + 1) == Bag(g, width + 1, row - 1, width) + g(row - 1, width);
    }
  }

  ghost function ColumnBag<T(!new)>(g: (int, int) -> multiset<T>, col: int, row: int): multiset<T>
    requires 0 <= row
    decreases row
  {
    if row == 0 then multiset{} else ColumnBag(g, col, row - 1) + g(row - 1, col)
  }

  /** The last row of the flipped matrix is the last column. */
  lemma {:induction false} LastRow<T(!new)>(g: (int, int) -> multiset<T>, rows: int, col: int, row: int)
    requires 0 <= row <= rows && 0 <= col
    ensures Bag(Flip(g), rows, col, row) == Bag(Flip(g), rows, col, 0) + ColumnBag(g, col, row)
    decreases row
  {
    if row > 0 {
      LastRow(g, rows, col, row - 1);
    }
  }

  lemma {:induction false} EmptyRows<T(!new)>(g: (int, int) -> multiset<T>, row: int)
    requires 0 <= row
    ensures Bag(g, 0, row, 0) == multiset{}
    decreases row
  {
    if row > 0 {
      EmptyRows(g, row - 1);
    }
  }

  /** Row by row and column by column the same pieces are met. */
  lemma {:induction false} FlipBag<T(!new)>(g: (int, int) -> multiset<T>, rows: int, width: int)
    requires 0 <= rows && 0 <= width
    ensures Bag(g, width, rows, 0) == Bag(Flip(g), rows, width, 0)
    decreases width
  {
    if width == 0 {
      EmptyRows(g, rows);
    } else {
      FlipBag(g, rows, width - 1);
      WiderBag(g, width - 1, rows, 0);
      LastRow(g, rows, width - 1, rows);
      assert Bag(Flip(g), rows, width, 0) == Bag(Flip(g), rows, width - 1, rows);
    }
  }

  // ----- pieces stored one after another -----

  /** Cell (i, j) of the matrix, row by row, is the piece of v that its length and the lengths
      before it give. */
  ghost predicate IsPiece<T(!new)>(g: (int, int) -> multiset<T>, v: seq<T>, len: seq<int>, width: int, i: int, j: int) {
    var x := Pos(width, j, i);
    && 0 <= x < |len|
    && 0 <= Sum(len, 0, x) <= Sum(len, 0, x + 1) <= |v|
    && g(i, j) == multiset(v[Sum(len, 0, x)..Sum(len, 0, x + 1)])
  }

  ghost predicate Pieces<T(!new)>(g: (int, int) -> multiset<T>, v: seq<T>, len: seq<int>, rows: int, width: int) {
    forall i, j :: 0 <= i < rows && 0 <= j < width ==> IsPiece(g, v, len, width, i, j)
  }

  lemma NextCell(width: int, i: int, j: int, rows: int)
    requires 0 <= i <= rows && 0 <= j <= width && (j == 0 || i < rows)
    ensures 0 <= Pos(width, j, i) <= rows * width
    ensures 0 < j ==> Pos(width, j, i) == Pos(width, j - 1, i) + 1
    ensures 0 < i && j == 0 ==> Pos(width, 0, i) == Pos(width, width, i - 1)
    ensures Pos(width, 0, 0) == 0 && Pos(width, 0, rows) == rows * width
  {
    var before, rest := i * width, rows - i;
    Distribute(i, rest, width);
    if 0 < i { Distribute(i - 1, 1, width); }
    if 0 < rest && 0 < width { MulAtLeast(rest, width); }
  }

  lemma Distribute(x: int, y: int, width: int)
    requires 0 <= x && 0 <= y && 0 <= width
    ensures 0 <= x * width && 0 <= y * width && (x + y) * width == x * width + y * width
  {
  }

  /** So the bag of the matrix is the bag of v, and its size the sum of the lengths. */
  lemma {:induction false} BagOfPieces<T(!new)>(g: (int, int) -> multiset<T>, v: seq<T>, len: seq<int>, rows: int, width: int,
                                                row: int, col: int)
    requires Pieces(g, v, len, rows, width) && |len| == rows * width
    requires 0 <= row <= rows && 0 <= col <= width && (col == 0 || row < rows)
    ensures 0 <= Pos(width, col, row) <= |len|
    ensures 0 <= Sum(len, 0, Pos(width, col, row)) <= |v|
    ensures Bag(g, width, row, col) == multiset(v[..Sum(len, 0, Pos(width, col, row))])
    decreases row, col
  {
    NextCell(width, row, col, rows);
    if col > 0 {
      BagOfPieces(g, v, len, rows, width, row, col - 1);
      assert IsPiece(g, v, len, width, row, col - 1);
      var x := Pos(width, col - 1, row);
      assert v[..Sum(len, 0, x + 1)] == v[..Sum(len, 0, x)] + v[Sum(len, 0, x)..Sum(len, 0, x + 1)];
    } else if row > 0 {
      BagOfPieces(g, v, len, rows, width, row - 1, width);
    }
  }

  /** Piece (i, j) has its length. */
  ghost predicate HasLength<T(!new)>(g: (int, int) -> multiset<T>, len: seq<int>, width: int, i: int, j: int) {
    0 <= Pos(width, j, i) < |len| && |g(i, j)| == len[Pos(width, j, i)]
  }

  lemma {:induction false} BagSize<T(!new)>(g: (int, int) -> multiset<T>, len: seq<int>, rows: int, width: int, row: int, col: int)
    requires |len| == rows * width
    requires forall i, j :: 0 <= i < rows && 0 <= j < width ==> HasLength(g, len, width, i, j)
    requires 0 <= row <= rows && 0 <= col <= width && (col == 0 || row < rows)
    ensures 0 <= Pos(width, col, row) <= |len|
    ensures |Bag(g, width, row, col)| == Sum(len, 0, Pos(width, col, row))
    decreases row, col
  {
    NextCell(width, row, col, rows);
    if col > 0 {
      BagSize(g, len, rows, width, row, col - 1);
      assert HasLength(g, len, width, row, col - 1);
    } else if row > 0 {
      BagSize(g, len, rows, width, row - 1, width);
    }
  }

  // ----- both layouts -----

  /** The lengths of the pieces row by row and column by column. */
  datatype Layout = Layout(len: seq<int>, flipped: seq<int>, rows: int, width: int) {
    ghost predicate Valid() {
      && 0 <= rows && 0 <= width && |len| == |flipped| == rows * width && Natural(len)
      && (forall y :: 0 <= y < |flipped| ==> 0 < rows && 0 <= Source(y, width, rows) < |len| && flipped[y] == len[Source(y, width, rows)])
    }
  }

  lemma FlippedNatural(d: Layout)
    requires d.Valid()
    ensures Natural(d.flipped)
  {
  }

  /** A bag of the size of cell (i, j). */
  ghost function Marks(d: Layout): (int, int) -> multiset<int> {
    (i, j) =>
      var x := Pos(d.width, j, i);
      if 0 <= x < |d.len| && 0 <= d.len[x] then multiset(seq(d.len[x], _ => 0)) else multiset{}
  }

  lemma MarkLengths(d: Layout)
    requires d.Valid()
    ensures forall i, j :: 0 <= i < d.rows && 0 <= j < d.width ==> HasLength(Marks(d), d.len, d.width, i, j)
    ensures forall j, i :: 0 <= j < d.width && 0 <= i < d.rows ==> HasLength(Flip(Marks(d)), d.flipped, d.rows, j, i)
  {
    hide Row, Col, Source;
    var g := Marks(d);
    forall i, j | 0 <= i < d.rows && 0 <= j < d.width
      ensures HasLength(g, d.len, d.width, i, j) && HasLength(Flip(g), d.flipped, d.rows, j, i)
    {
      CellOf(i, j, d.width, d.rows);
    }
  }

  /** Both layouts have the same total length. */
  lemma SameTotal(d: Layout)
    requires d.Valid()
    ensures Sum(d.flipped, 0, |d.flipped|) == Sum(d.len, 0, |d.len|)
  {
    hide Row, Col, Source, Pos, Sum, d.Valid, HasLength, Marks, Flip;
    var g := Marks(d);
    LayoutEnds(d);
    MarkLengths(d);
    BagSize(g, d.len, d.rows, d.width, d.rows, 0);
    BagSize(Flip(g), d.flipped, d.width, d.rows, d.width, 0);
    FlipBag(g, d.rows, d.width);
  }

  /** Both layouts end where a row or column after the last would begin. */
  lemma LayoutEnds(d: Layout)
    requires d.Valid()
    ensures 0 <= d.rows && 0 <= d.width && |d.len| == d.rows * d.width && |d.flipped| == d.width * d.rows
    ensures Pos(d.width, 0, d.rows) == |d.len| && Pos(d.rows, 0, d.width) == |d.flipped|
  {
    NextCell(d.width, d.rows, 0, d.rows);
    NextCell(d.rows, d.width, 0, d.width);
  }

  /** Cell z of w: the cell of v that belongs there if its piece is in the block, else as in w0. */
  ghost predicate Arrived<T(!new)>(v: seq<T>, lo: int, w0: seq<T>, w: seq<T>, d: Layout,
                                   rStart: int, rCount: int, cStart: int, cCount: int, z: int)
    requires d.Valid() && 0 <= z < |w| == |w0|
  {
    FlippedNatural(d);
    if z < Sum(d.flipped, 0, |d.flipped|) then
      var p := Locate(d.flipped, 0, |d.flipped|, z);
      var src := lo + Sum(d.len, 0, Source(p.leaf, d.width, d.rows)) + p.k;
      && 0 <= src < |v|
      && w[z] == if InBlock(p.leaf, d.rows, rStart, rCount, cStart, cCount) then v[src] else w0[z]
    else w[z] == w0[z]
  }

  /** The pieces of the block have moved; all other cells are as in w0. */
  ghost predicate Gathered<T(!new)>(v: seq<T>, lo: int, w0: seq<T>, w: seq<T>, d: Layout,
                                    rStart: int, rCount: int, cStart: int, cCount: int) {
    && d.Valid() && |w| == |w0|
    && (forall z :: 0 <= z < |w| ==> Arrived(v, lo, w0, w, d, rStart, rCount, cStart, cCount, z))
  }

  /** A piece lies within v. */
  lemma SourceBounds(d: Layout, z: int)
    requires d.Valid() && 0 <= z < Sum(d.flipped, 0, |d.flipped|)
    ensures Natural(d.flipped)
    ensures var p := Locate(d.flipped, 0, |d.flipped|, z);
            0 <= Sum(d.len, 0, Source(p.leaf, d.width, d.rows)) + p.k < Sum(d.len, 0, |d.len|)
  {
    FlippedNatural(d);
    var p := Locate(d.flipped, 0, |d.flipped|, z);
    var x := Source(p.leaf, d.width, d.rows);
    SumMonotone(d.len, 0, x + 1, |d.len|);
    SumNatural(d.len, 0, x);
  }

  lemma NothingGathered<T(!new)>(v: seq<T>, lo: int, w: seq<T>, d: Layout, rStart: int, rCount: int, cStart: int, cCount: int)
    requires d.Valid() && 0 <= lo && lo + Sum(d.len, 0, |d.len|) <= |v| && (rCount == 0 || cCount == 0)
    ensures Gathered(v, lo, w, w, d, rStart, rCount, cStart, cCount)
  {
    forall z | 0 <= z < |w|
      ensures Arrived(v, lo, w, w, d, rStart, rCount, cStart, cCount, z)
    {
      if z < Sum(d.flipped, 0, |d.flipped|) {
        SourceBounds(d, z);
      }
    }
  }

  /** Two adjacent blocks make one. */
  lemma GatheredJoin<T(!new)>(v: seq<T>, lo: int, w0: seq<T>, w1: seq<T>, w2: seq<T>, d: Layout, rStart: int, r1: int, r2: int,
                              cStart: int, c1: int, c2: int, columns: bool)
    requires 0 <= r1 && 0 <= r2 && 0 <= c1 && 0 <= c2
    requires Gathered(v, lo, w0, w1, d, rStart, r1, cStart, c1)
    requires if columns then r1 == r2 && Gathered(v, lo, w1, w2, d, rStart, r1, cStart + c1, c2)
             else c1 == c2 && Gathered(v, lo, w1, w2, d, rStart + r1, r2, cStart, c1)
    ensures if columns then Gathered(v, lo, w0, w2, d, rStart, r1, cStart, c1 + c2)
            else Gathered(v, lo, w0, w2, d, rStart, r1 + r2, cStart, c1)
  {
    hide Row, Col, Pos, Source;
    var r, c := r1 + r2, c1 + c2;
    if columns {
      forall z | 0 <= z < |w2|
        ensures Arrived(v, lo, w0, w2, d, rStart, r1, cStart, c, z)
      {
        assert Arrived(v, lo, w0, w1, d, rStart, r1, cStart, c1, z);
        assert Arrived(v, lo, w1, w2, d, rStart, r1, cStart + c1, c2, z);
      }
    } else {
      forall z | 0 <= z < |w2|
        ensures Arrived(v, lo, w0, w2, d, rStart, r, cStart, c1, z)
      {
        assert Arrived(v, lo, w0, w1, d, rStart, r1, cStart, c1, z);
        assert Arrived(v, lo, w1, w2, d, rStart + r1, r2, cStart, c1, z);
      }
    }
  }

  /** w arises from w0 by copying cells of v. */
  ghost predicate Moved<T(!new)>(v: seq<T>, pa: int, w0: seq<T>, w: seq<T>, pb: int, l: int) {
    && 0 <= pa && pa + l <= |v| && 0 <= pb && pb + l <= |w| == |w0|
    && (forall z {:trigger w[z]} :: 0 <= z < |w| ==> w[z] == if pb <= z < pb + l then v[pa + z - pb] else w0[z])
  }

  /** One piece moves. */
  lemma PieceMoved<T(!new)>(v: seq<T>, lo: int, w0: seq<T>, w: seq<T>, d: Layout, i: int, j: int)
    requires d.Valid() && 0 <= lo && lo + Sum(d.len, 0, |d.len|) <= |v| && 0 <= i < d.rows && 0 <= j < d.width
    requires 0 <= Pos(d.width, j, i) < |d.len| && 0 <= Pos(d.rows, i, j) < |d.flipped|
    requires Moved(v, lo + Sum(d.len, 0, Pos(d.width, j, i)), w0, w, Sum(d.flipped, 0, Pos(d.rows, i, j)), d.len[Pos(d.width, j, i)])
    ensures Gathered(v, lo, w0, w, d, i, 1, j, 1)
  {
    forall z | 0 <= z < |w|
      ensures Arrived(v, lo, w0, w, d, i, 1, j, 1, z)
    {
      OneArrived(v, lo, w0, w, d, i, j, z);
    }
  }

  lemma OneArrived<T(!new)>(v: seq<T>, lo: int, w0: seq<T>, w: seq<T>, d: Layout, i: int, j: int, z: int)
    requires d.Valid() && 0 <= lo && lo + Sum(d.len, 0, |d.len|) <= |v| && 0 <= i < d.rows && 0 <= j < d.width
    requires 0 <= Pos(d.width, j, i) < |d.len| && 0 <= Pos(d.rows, i, j) < |d.flipped|
    requires Moved(v, lo + Sum(d.len, 0, Pos(d.width, j, i)), w0, w, Sum(d.flipped, 0, Pos(d.rows, i, j)), d.len[Pos(d.width, j, i)])
    requires 0 <= z < |w|
    ensures Arrived(v, lo, w0, w, d, i, 1, j, 1, z)
  {
    var y, n := Pos(d.rows, i, j), |d.flipped|;
    CellOf(i, j, d.width, d.rows);
    FlippedNatural(d);
    SumMonotone(d.flipped, 0, y + 1, n);
    if z < Sum(d.flipped, 0, n) {
      SourceBounds(d, z);
      var p := Locate(d.flipped, 0, n, z);
      PosOf(d.rows, p.leaf);
      if Sum(d.flipped, 0, y) <= z < Sum(d.flipped, 0, y) + d.flipped[y] {
        LocateUnique(d.flipped, 0, n, y, z - Sum(d.flipped, 0, y));
      }
    }
  }

  // ----- the methods -----

  /** Lengths and offsets as the caller prepares them: those of the pieces in both layouts. */
  ghost predicate Offsets(d: Layout, oa: seq<int>, ob: seq<int>, l: seq<int>) {
    && d.Valid() && l == d.len && |oa| == |ob| == |l|
    && (forall x :: 0 <= x < |oa| ==> oa[x] == Sum(d.len, 0, x))
    && (forall y :: 0 <= y < |ob| ==> ob[y] == Sum(d.flipped, 0, y))
  }

  method MovePiece<T(!new)>(a: array<T>, b: array<T>, pa: int, pb: int, l: int)
    requires a != b && 0 <= pa && 0 <= l && pa + l <= a.Length && 0 <= pb && pb + l <= b.Length
    modifies b
    ensures Moved(a[..], pa, old(b[..]), b[..], pb, l)
  {
    for k := 0 to l
      invariant Moved(a[..], pa, old(b[..]), b[..], pb, k) && a[..] == old(a[..])
    {
      b[pb + k] := a[pa + k];
    }
  }

  lemma PieceBounds(d: Layout, i: int, j: int)
    requires d.Valid() && 0 <= i < d.rows && 0 <= j < d.width
    ensures 0 <= Pos(d.width, j, i) < |d.len| && 0 <= Pos(d.rows, i, j) < |d.flipped|
    ensures var x, y := Pos(d.width, j, i), Pos(d.rows, i, j);
            && d.flipped[y] == d.len[x] >= 0
            && 0 <= Sum(d.len, 0, x) && Sum(d.len, 0, x) + d.len[x] <= Sum(d.len, 0, |d.len|)
            && 0 <= Sum(d.flipped, 0, y) && Sum(d.flipped, 0, y) + d.flipped[y] <= Sum(d.flipped, 0, |d.flipped|)
  {
    CellOf(i, j, d.width, d.rows);
    FlippedNatural(d);
    var x, y := Pos(d.width, j, i), Pos(d.rows, i, j);
    SumMonotone(d.len, 0, x + 1, |d.len|);
    SumNatural(d.len, 0, x);
    SumMonotone(d.flipped, 0, y + 1, |d.flipped|);
    SumNatural(d.flipped, 0, y);
  }

  /** Halves the longer side until the block is small, then moves its pieces one by one. */
  method BlockTransR<T(!new)>(a: array<T>, lo: int, b: array<T>, oa: array<int>, ob: array<int>, l: array<int>,
                              rStart: int, rCount: int, rLength: int, cStart: int, cCount: int, cLength: int,
                              threshold: int, ghost d: Layout)
    requires Offsets(d, oa[..], ob[..], l[..]) && rLength == d.width && cLength == d.rows && 2 <= threshold
    requires BlockBounds(rStart, rCount, rLength, cStart, cCount, cLength)
    requires a != b && (b as object) != oa && (b as object) != ob && (b as object) != l
    requires 0 <= lo && lo + Sum(d.len, 0, |d.len|) <= a.Length && Sum(d.flipped, 0, |d.flipped|) <= b.Length
    modifies b
    ensures Gathered(a[..], lo, old(b[..]), b[..], d, rStart, rCount, cStart, cCount)
    decreases rCount + cCount
  {
    hide Gathered, InBlock, Offsets, d.Valid, Sum;
    ghost var v, w0 := a[..], b[..];
    if cCount < threshold && rCount < threshold {
      OffsetsValid(d, oa[..], ob[..], l[..]);
      NothingGathered(v, lo, w0, d, rStart, 0, cStart, cCount);
      for i := rStart to rStart + rCount
        invariant a[..] == v && oa[..] == old(oa[..]) && ob[..] == old(ob[..]) && l[..] == old(l[..])
        invariant Gathered(v, lo, w0, b[..], d, rStart, i - rStart, cStart, cCount)
      {
        BlockTransRow(a, lo, b, oa, ob, l, i, rLength, cStart, cCount, cLength, rStart, w0, d);
      }
    } else if cCount > rCount {
      var l1 := cCount / 2;
      var l2 := cCount - cCount / 2;
      BlockTransR(a, lo, b, oa, ob, l, rStart, rCount, rLength, cStart, l1, cLength, threshold, d);
      ghost var w1 := b[..];
      BlockTransR(a, lo, b, oa, ob, l, rStart, rCount, rLength, cStart + l1, l2, cLength, threshold, d);
      GatheredJoin(v, lo, w0, w1, b[..], d, rStart, rCount, rCount, cStart, l1, l2, true);
    } else {
      var l1 := rCount / 2;
      var l2 := rCount - rCount / 2;
      BlockTransR(a, lo, b, oa, ob, l, rStart, l1, rLength, cStart, cCount, cLength, threshold, d);
      ghost var w1 := b[..];
      BlockTransR(a, lo, b, oa, ob, l, rStart + l1, l2, rLength, cStart, cCount, cLength, threshold, d);
      GatheredJoin(v, lo, w0, w1, b[..], d, rStart, l1, l2, cStart, cCount, cCount, false);
    }
  }

  lemma OffsetsValid(d: Layout, oa: seq<int>, ob: seq<int>, l: seq<int>)
    requires Offsets(d, oa, ob, l)
    ensures d.Valid() && |oa| == |ob| == |l| == |d.len| == |d.flipped| && l == d.len
  {
  }

  method BlockTransRow<T(!new)>(a: array<T>, lo: int, b: array<T>, oa: array<int>, ob: array<int>, l: array<int>,
                                i: int, rLength: int, cStart: int, cCount: int, cLength: int,
                                ghost rStart: int, ghost w0: seq<T>, ghost d: Layout)
    requires Offsets(d, oa[..], ob[..], l[..]) && rLength == d.width && cLength == d.rows
    requires 0 <= rStart <= i < cLength && 0 <= cStart && 0 <= cCount && cStart + cCount <= rLength
    requires a != b && (b as object) != oa && (b as object) != ob && (b as object) != l
    requires 0 <= lo && lo + Sum(d.len, 0, |d.len|) <= a.Length && Sum(d.flipped, 0, |d.flipped|) <= b.Length
    requires Gathered(a[..], lo, w0, b[..], d, rStart, i - rStart, cStart, cCount)
    modifies b
    ensures Gathered(a[..], lo, w0, b[..], d, rStart, i + 1 - rStart, cStart, cCount)
  {
    hide Gathered, InBlock, d.Valid, Sum, Moved;
    ghost var v, w1 := a[..], b[..];
    OffsetsValid(d, oa[..], ob[..], l[..]);
    NothingGathered(v, lo, w1, d, i, 1, cStart, 0);
    for j := cStart to cStart + cCount
      invariant a[..] == v && oa[..] == old(oa[..]) && ob[..] == old(ob[..]) && l[..] == old(l[..])
      invariant Gathered(v, lo, w1, b[..], d, i, 1, cStart, j - cStart)
    {
      ghost var w := b[..];
      PieceBounds(d, i, j);
      var pa := lo + oa[Pos(rLength, j, i)];
      var pb := ob[Pos(cLength, i, j)];
      MovePiece(a, b, pa, pb, l[Pos(rLength, j, i)]);
      PieceMoved(v, lo, w, b[..], d, i, j);
      GatheredJoin(v, lo, w1, w, b[..], d, i, 1, 1, cStart, j - cStart, 1, true);
    }
    GatheredJoin(v, lo, w0, w1, b[..], d, rStart, i - rStart, 1, cStart, cCount, cCount, false);
  }

  // ----- the whole block transpose -----

  /** Every cell of w below the total comes from the piece it lies in. */
  ghost predicate AllGathered<T(!new)>(v: seq<T>, lo: int, w: seq<T>, d: Layout) {
    && d.Valid() && 0 <= lo && lo + Sum(d.len, 0, |d.len|) <= |v| && Sum(d.len, 0, |d.len|) <= |w|
    && (forall z :: 0 <= z < Sum(d.len, 0, |d.len|) ==> FromPiece(v, lo, w, d, z))
  }

  ghost predicate FromPiece<T(!new)>(v: seq<T>, lo: int, w: seq<T>, d: Layout, z: int)
    requires d.Valid() && 0 <= z < Sum(d.len, 0, |d.len|) <= |w|
  {
    FlippedNatural(d);
    SameTotal(d);
    var p := Locate(d.flipped, 0, |d.flipped|, z);
    var src := lo + Sum(d.len, 0, Source(p.leaf, d.width, d.rows)) + p.k;
    0 <= src < |v| && w[z] == v[src]
  }

  lemma GatheredAll<T(!new)>(v: seq<T>, lo: int, w0: seq<T>, w: seq<T>, d: Layout)
    requires Gathered(v, lo, w0, w, d, 0, d.rows, 0, d.width) && Sum(d.len, 0, |d.len|) <= |w|
    requires 0 <= lo && lo + Sum(d.len, 0, |d.len|) <= |v|
    ensures AllGathered(v, lo, w, d)
  {
    hide Row, Col, Source;
    SameTotal(d);
    FlippedNatural(d);
    forall z | 0 <= z < Sum(d.len, 0, |d.len|)
      ensures FromPiece(v, lo, w, d, z)
    {
      var p := Locate(d.flipped, 0, |d.flipped|, z);
      SourceInside(p.leaf, d.width, d.rows);
      assert Arrived(v, lo, w0, w, d, 0, d.rows, 0, d.width, z);
    }
  }

  lemma PieceCell<T(!new)>(v: seq<T>, lo: int, w: seq<T>, d: Layout, i: int, j: int, k: int)
    requires AllGathered(v, lo, w, d) && 0 <= i < d.rows && 0 <= j < d.width
    requires 0 <= Pos(d.width, j, i) < |d.len| && 0 <= Pos(d.rows, i, j) < |d.flipped| && 0 <= k < d.len[Pos(d.width, j, i)]
    ensures var src, dst := lo + Sum(d.len, 0, Pos(d.width, j, i)) + k, Sum(d.flipped, 0, Pos(d.rows, i, j)) + k;
            0 <= src < |v| && 0 <= dst < |w| && w[dst] == v[src]
  {
    hide Row, Col, Source;
    SameTotal(d);
    FlippedNatural(d);
    CellOf(i, j, d.width, d.rows);
    var y := Pos(d.rows, i, j);
    LocateUnique(d.flipped, 0, |d.flipped|, y, k);
    assert FromPiece(v, lo, w, d, Sum(d.flipped, 0, y) + k);
  }

  /** Each piece arrives whole. */
  lemma WholePiece<T(!new)>(v: seq<T>, lo: int, w: seq<T>, d: Layout, i: int, j: int)
    requires AllGathered(v, lo, w, d) && 0 <= i < d.rows && 0 <= j < d.width
    ensures 0 <= Pos(d.width, j, i) < |d.len| && 0 <= Pos(d.rows, i, j) < |d.flipped|
    ensures var oa, ob, l := Sum(d.len, 0, Pos(d.width, j, i)), Sum(d.flipped, 0, Pos(d.rows, i, j)), d.len[Pos(d.width, j, i)];
            && 0 <= oa <= oa + l <= Sum(d.len, 0, |d.len|) && 0 <= ob <= ob + l <= Sum(d.len, 0, |d.len|)
            && w[ob..ob + l] == v[lo + oa..lo + oa + l]
  {
    hide Pos, Sum, AllGathered, d.Valid;
    WholeParts(v, lo, w, d);
    PieceBounds(d, i, j);
    SameTotal(d);
    var oa, ob, l := Sum(d.len, 0, Pos(d.width, j, i)), Sum(d.flipped, 0, Pos(d.rows, i, j)), d.len[Pos(d.width, j, i)];
    var there, here := v[lo + oa..lo + oa + l], w[ob..ob + l];
    forall k | 0 <= k < l
      ensures here[k] == there[k]
    {
      PieceCell(v, lo, w, d, i, j, k);
    }
  }

  /** The bag of the piece in cell (i, j). */
  ghost function PieceBag<T(!new)>(v: seq<T>, d: Layout): (int, int) -> multiset<T> {
    (i, j) =>
      var x := Pos(d.width, j, i);
      if 0 <= x < |d.len| && 0 <= Sum(d.len, 0, x) <= Sum(d.len, 0, x + 1) <= |v|
      then multiset(v[Sum(d.len, 0, x)..Sum(d.len, 0, x + 1)]) else multiset{}
  }

  /** The block transpose is a rearrangement: no element is lost or doubled. */
  lemma GatheredPermutes<T(!new)>(v: seq<T>, lo: int, w: seq<T>, d: Layout)
    requires AllGathered(v, lo, w, d)
    ensures 0 <= Sum(d.len, 0, |d.len|)
    ensures multiset(w[..Sum(d.len, 0, |d.len|)]) == multiset(v[lo..lo + Sum(d.len, 0, |d.len|)])
  {
    hide Row, Col, Source, Pos, Sum, AllGathered, d.Valid, IsPiece, PieceBag, Flip;
    WholeParts(v, lo, w, d);
    LayoutEnds(d);
    SameTotal(d);
    var n := Sum(d.len, 0, |d.len|);
    var v', w' := v[lo..lo + n], w[..n];
    var g := PieceBag(v', d);
    forall i, j | 0 <= i < d.rows && 0 <= j < d.width
      ensures IsPiece(g, v', d.len, d.width, i, j) && IsPiece(Flip(g), w', d.flipped, d.rows, j, i)
    {
      SamePiece(v, lo, w, d, i, j);
    }
    BagOfPieces(g, v', d.len, d.rows, d.width, d.rows, 0);
    BagOfPieces(Flip(g), w', d.flipped, d.width, d.rows, d.width, 0);
    FlipBag(g, d.rows, d.width);
    assert v'[..n] == v' && w'[..n] == w';
  }

  lemma WholeParts<T(!new)>(v: seq<T>, lo: int, w: seq<T>, d: Layout)
    requires AllGathered(v, lo, w, d)
    ensures d.Valid() && 0 <= d.rows && 0 <= d.width && |d.len| == |d.flipped| == d.rows * d.width
    ensures 0 <= Sum(d.len, 0, |d.len|) <= |w| && 0 <= lo && lo + Sum(d.len, 0, |d.len|) <= |v|
  {
    SumNatural(d.len, 0, |d.len|);
  }

  lemma SamePiece<T(!new)>(v: seq<T>, lo: int, w: seq<T>, d: Layout, i: int, j: int)
    requires AllGathered(v, lo, w, d) && 0 <= i < d.rows && 0 <= j < d.width
    requires 0 <= Sum(d.len, 0, |d.len|)
    ensures var n := Sum(d.len, 0, |d.len|);
            var g := PieceBag(v[lo..lo + n], d);
            && IsPiece(g, v[lo..lo + n], d.len, d.width, i, j)
            && IsPiece(Flip(g), w[..n], d.flipped, d.rows, j, i)
  {
    hide Row, Col, Source, Locate, AllGathered, Pos, Sum, d.Valid, PieceBag;
    WholeParts(v, lo, w, d);
    var n := Sum(d.len, 0, |d.len|);
    WholePiece(v, lo, w, d, i, j);
    PieceBounds(d, i, j);
    var x, y := Pos(d.width, j, i), Pos(d.rows, i, j);
    var oa, ob, l := Sum(d.len, 0, x), Sum(d.flipped, 0, y), d.len[x];
    SliceOfSlice(v, lo, n, oa, l);
    SliceOfSlice(w, 0, n, ob, l);
    NextSum(d.len, x);
    NextSum(d.flipped, y);
    BagOfPiece(v[lo..lo + n], d, i, j, x);
  }

  lemma NextSum(len: seq<int>, x: int)
    requires 0 <= x < |len|
    ensures Sum(len, 0, x + 1) == Sum(len, 0, x) + len[x]
  {
  }

  lemma BagOfPiece<T(!new)>(v: seq<T>, d: Layout, i: int, j: int, x: int)
    requires x == Pos(d.width, j, i) && 0 <= x < |d.len| && 0 <= Sum(d.len, 0, x) <= Sum(d.len, 0, x + 1) <= |v|
    ensures PieceBag(v, d)(i, j) == multiset(v[Sum(d.len, 0, x)..Sum(d.len, 0, x + 1)])
  {
  }

  lemma SliceOfSlice<T>(v: seq<T>, lo: int, n: int, at: int, l: int)
    requires 0 <= lo && lo + n <= |v| && 0 <= at && 0 <= l && at + l <= n
    ensures v[lo..lo + n][at..at + l] == v[lo + at..lo + at + l]
  {
    var x, y := v[lo..lo + n][at..at + l], v[lo + at..lo + at + l];
    assert |x| == l == |y|;
    assert forall k :: 0 <= k < l ==> x[k] == y[k];
  }

  /** A cell of column c came from a piece in column c. */
  lemma ColumnOf(d: Layout, c: int, z: int)
    requires d.Valid() && 0 <= c < d.width
    requires 0 <= Pos(d.rows, 0, c) <= |d.flipped| && 0 <= Pos(d.rows, 0, c + 1) <= |d.flipped|
    requires Sum(d.flipped, 0, Pos(d.rows, 0, c)) <= z < Sum(d.flipped, 0, Pos(d.rows, 0, c + 1))
    ensures Natural(d.flipped) && 0 <= z < Sum(d.flipped, 0, |d.flipped|)
    ensures var y := Locate(d.flipped, 0, |d.flipped|, z).leaf; Col(d.width, Source(y, d.width, d.rows)) == c
  {
    FlippedNatural(d);
    var first, next := Pos(d.rows, 0, c), Pos(d.rows, 0, c + 1);
    SumNatural(d.flipped, 0, first);
    SumMonotone(d.flipped, 0, next, |d.flipped|);
    var p := Locate(d.flipped, 0, |d.flipped|, z);
    if p.leaf < first {
      SumMonotone(d.flipped, 0, p.leaf + 1, first);
    }
    if next <= p.leaf {
      SumMonotone(d.flipped, 0, next, p.leaf);
    }
    RowOf(d.rows, p.leaf, c);
    PosDivMod(d.width, c, Col(d.rows, p.leaf));
  }

  lemma RowOf(p: int, x: int, c: int)
    requires 0 < p && 0 <= c && Pos(p, 0, c) <= x < Pos(p, 0, c + 1)
    ensures 0 <= x && Row(p, x) == c
  {
    assert c * p >= 0;
    PosOf(p, x);
    assert (Row(p, x) - c) * p == Row(p, x) * p - c * p;
    MulAtLeast(Row(p, x) - c, p);
  }

  /** The k-th cell of piece x carries the number of the piece's column. */
  ghost predicate CarriesColumn<T(!new)>(v: seq<T>, lo: int, d: Layout, seg: T -> int, x: int, k: int)
    requires 0 <= x < |d.len| && 0 < d.width
  {
    var src := lo + Sum(d.len, 0, x) + k;
    0 <= src < |v| && seg(v[src]) == Col(d.width, x)
  }

  /** Where all cells of a column of pieces carry its number, so do the cells of the block transpose
      from the column's offset up to that of the next one. */
  lemma ColumnsGathered<T(!new)>(v: seq<T>, lo: int, w: seq<T>, d: Layout, seg: T -> int, c: int, z: int)
    requires AllGathered(v, lo, w, d) && 0 <= c < d.width
    requires forall x, k :: 0 <= x < |d.len| && 0 <= k < d.len[x] ==> CarriesColumn(v, lo, d, seg, x, k)
    requires 0 <= Pos(d.rows, 0, c) <= |d.flipped| && 0 <= Pos(d.rows, 0, c + 1) <= |d.flipped|
    requires Sum(d.flipped, 0, Pos(d.rows, 0, c)) <= z < Sum(d.flipped, 0, Pos(d.rows, 0, c + 1))
    ensures 0 <= z < |w| && seg(w[z]) == c
  {
    hide Row, Col, Source;
    ColumnOf(d, c, z);
    SameTotal(d);
    var p := Locate(d.flipped, 0, |d.flipped|, z);
    var x := Source(p.leaf, d.width, d.rows);
    assert FromPiece(v, lo, w, d, z);
    assert CarriesColumn(v, lo, d, seg, x, p.k);
  }

  /** The block transpose of an rCount by cCount matrix of pieces. */
  method BlockTrans<T(!new)>(a: array<T>, lo: int, b: array<T>, oa: array<int>, ob: array<int>, l: array<int>,
                             rCount: int, cCount: int, threshold: int, ghost d: Layout)
    requires Offsets(d, oa[..], ob[..], l[..]) && cCount == d.width && rCount == d.rows && 2 <= threshold
    requires a != b && (b as object) != oa && (b as object) != ob && (b as object) != l
    requires 0 <= lo && lo + Sum(d.len, 0, |d.len|) <= a.Length && Sum(d.len, 0, |d.len|) <= b.Length
    modifies b
    ensures AllGathered(a[..], lo, b[..], d)
    ensures 0 <= Sum(d.len, 0, |d.len|)
    ensures multiset(b[..Sum(d.len, 0, |d.len|)]) == multiset(a[lo..lo + Sum(d.len, 0, |d.len|)])
  {
    SameTotal(d);
    BlockTransR(a, lo, b, oa, ob, l, 0, rCount, cCount, 0, cCount, rCount, threshold, d);
    GatheredAll(a[..], lo, old(b[..]), b[..], d);
    GatheredPermutes(a[..], lo, b[..], d);
    ghost var n := Sum(d.len, 0, |d.len|);
    assert b[..][..n] == b[..n] && a[..][lo..lo + n] == a[lo..lo + n];
  }
}
