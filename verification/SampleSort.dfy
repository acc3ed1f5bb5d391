/** The sample sort of sampleSort.h: rows are sorted and split at sampled pivots, the block transpose
    gathers the segments, and every segment is sorted in turn. */
module SampleSort {
  import opened Orders
  import opened SumTree
  import opened Strides
  import opened Transpose
  import opened BlockTranspose
  import opened SampleSegments
  import Sequence
  import ThreeWay
  import Schedules

  const AVG_SEG_SIZE := 2
  const PIVOT_QUOT := 2
  const OVER_SAMPLE := 4

  /** What the sort gets from outside: the size threshold, the rounded square root, the sampling hash,
      the block sizes of scan and transpose, and the order in which parallel blocks run. */
  datatype Setting = Setting(threshold: int, root: int -> int, hash: int -> int,
                             scanBlock: int, orders: int -> Schedules.Order, transBlock: int) {
    ghost predicate Valid() {
      && 2 <= transBlock && 1 < scanBlock
      && (forall n :: 0 <= n ==> Schedules.IsOrder(orders(n), n))
      && (forall n :: threshold <= n ==> RootFits(root(n), n))
    }
  }

  /** Enough pivots, and rows shorter than the range. */
  predicate RootFits(r: int, n: int) {
    7 <= r && 2 * r < n
  }

  /** The exact square root fits from 49 on, far below the threshold of 100000. */
  lemma SquareRootFits(r: int, n: int)
    requires 0 <= r && r * r <= n < (r + 1) * (r + 1) && 49 <= n
    ensures RootFits(r, n)
  {
    assert r < 7 ==> (r + 1) * (r + 1) <= 7 * (r + 1);
    assert 7 <= r ==> 7 * r <= r * r;
  }

  // ----- sampling -----

  ghost predicate Within<T(!new)>(v: seq<T>, lo: int, hi: int, x: T)
    requires 0 <= lo && hi <= |v|
  {
    exists i :: lo <= i < hi && v[i] == x
  }

  lemma WithinKept<T(!new)>(s: seq<T>, t: seq<T>, lo: int, hi: int, x: T)
    requires Permuted(s, t, lo, hi) && Within(s, lo, hi, x)
    ensures Within(t, lo, hi, x)
  {
    var i :| lo <= i < hi && s[i] == x;
    var k := PermutedFrom(t, s, lo, hi, i);
  }

  /** Pivots in order, all of them elements of the range. */
  ghost predicate Sampled<T(!new)>(lt: (T, T) -> bool, v: seq<T>, lo: int, hi: int, p: seq<T>) {
    && 0 <= lo <= hi <= |v| && Sorted(lt, p, 0, |p|)
    && (forall k :: 0 <= k < |p| ==> Within(v, lo, hi, p[k]))
  }

  lemma SampledKept<T(!new)>(lt: (T, T) -> bool, s: seq<T>, t: seq<T>, lo: int, hi: int, p: seq<T>)
    requires Sampled(lt, s, lo, hi, p) && Permuted(s, t, lo, hi)
    ensures Sampled(lt, t, lo, hi, p)
  {
    forall k | 0 <= k < |p|
      ensures Within(t, lo, hi, p[k])
    {
      WithinKept(s, t, lo, hi, p[k]);
    }
  }

  /** The elements the hash picks. */
  function Picked<T>(v: seq<T>, lo: int, hi: int, size: nat, hash: int -> int): (s: seq<T>)
    requires 0 <= lo < hi <= |v|
    ensures |s| == size && forall j :: 0 <= j < size ==> s[j] == v[lo + hash(j) % (hi - lo)]
  {
    seq(size, j => v[lo + hash(j) % (hi - lo)])
  }

  /** Every OVER_SAMPLE-th element of the picked ones in order. */
  ghost predicate EvenlyTaken<T(!new)>(lt: (T, T) -> bool, picked: seq<T>, p: seq<T>) {
    exists t: seq<T> ::
      && multiset(t) == multiset(picked) && |t| == |picked| == OVER_SAMPLE * (|p| + 1) && Sorted(lt, t, 0, |t|)
      && forall k :: 0 <= k < |p| ==> p[k] == t[OVER_SAMPLE * k]
  }

  lemma TakenSampled<T(!new)>(lt: (T, T) -> bool, v: seq<T>, lo: int, hi: int, size: nat, hash: int -> int, t: seq<T>, p: seq<T>)
    requires StrictWeak(lt) && 0 <= lo < hi <= |v| && size == OVER_SAMPLE * (|p| + 1) == |t|
    requires Permuted(Picked(v, lo, hi, size, hash), t, 0, size) && Sorted(lt, t, 0, size)
    requires forall k :: 0 <= k < |p| ==> p[k] == t[OVER_SAMPLE * k]
    ensures Sampled(lt, v, lo, hi, p) && EvenlyTaken(lt, Picked(v, lo, hi, size, hash), p)
  {
    var s := Picked(v, lo, hi, size, hash);
    forall i, k | 0 <= i < k < |p|
      ensures !lt(p[k], p[i])
    {
      assert !lt(t[OVER_SAMPLE * k], t[OVER_SAMPLE * i]);
    }
    forall k | 0 <= k < |p|
      ensures Within(v, lo, hi, p[k])
    {
      var i := PermutedFrom(s, t, 0, size, OVER_SAMPLE * k);
      assert v[lo + hash(i) % (hi - lo)] == p[k];
    }
  }

  method PickSample<T(!new)>(a: array<T>, lo: int, hi: int, size: nat, hash: int -> int) returns (sampleSet: array<T>)
    requires 0 <= lo < hi <= a.Length
    ensures fresh(sampleSet) && sampleSet[..] == Picked(a[..], lo, hi, size, hash)
  {
    hide Picked;
    var n, first := hi - lo, a[lo];
    ghost var picked := Picked(a[..], lo, hi, size, hash);
    sampleSet := new T[size](_ => first);
    for j := 0 to size
      invariant forall k :: 0 <= k < j ==> sampleSet[k] == picked[k]
    {
      var o := hash(j) % n;
      assert picked[j] == a[..][lo + o];
      sampleSet[j] := a[lo + o];
    }
  }

  method ChoosePivots<T(!new)>(a: array<T>, lo: int, hi: int, numSegs: int, hash: int -> int, lt: (T, T) -> bool)
    returns (pivots: array<T>)
    requires StrictWeak(lt) && 0 <= lo < hi <= a.Length && 1 <= numSegs
    ensures fresh(pivots) && pivots.Length == numSegs - 1 && Sampled(lt, a[..], lo, hi, pivots[..])
    ensures EvenlyTaken(lt, Picked(a[..], lo, hi, numSegs * OVER_SAMPLE, hash), pivots[..])
  {
    hide Permuted, Sorted, Sampled, EvenlyTaken;
    var sampleSetSize := numSegs * OVER_SAMPLE;
    var sampleSet := PickSample(a, lo, hi, sampleSetSize, hash);
    ThreeWay.QuickSort(sampleSet, 0, sampleSetSize, lt);
    ghost var t := sampleSet[..];
    var first := a[lo];
    pivots := new T[numSegs - 1](_ => first);
    for k := 0 to numSegs - 1
      invariant sampleSet[..] == t
      invariant forall i :: 0 <= i < k ==> pivots[i] == t[OVER_SAMPLE * i]
    {
      var o := OVER_SAMPLE * k;
      pivots[k] := sampleSet[o];
    }
    TakenSampled(lt, a[..], lo, hi, sampleSetSize, hash, t, pivots[..]);
  }

  // ----- rows -----

  /** The k-th element of piece x belongs to the segment of the piece's column. */
  ghost predicate InColumn<T(!new)>(lt: (T, T) -> bool, p: seq<T>, v: seq<T>, lo: int, counts: seq<int>, x: int, k: int)
    requires 0 <= x < |counts|
  {
    var src := lo + Sum(counts, 0, x) + k;
    0 <= src < |v| && Segment(lt, p)(v[src]) == Col(|p| + 1, x)
  }

  /** The first done pieces cover the first len cells of the range. */
  ghost predicate RowsSplit<T(!new)>(lt: (T, T) -> bool, p: seq<T>, v: seq<T>, lo: int, counts: seq<int>, done: int, len: int) {
    && 0 <= done <= |counts| && 0 <= lo && 0 <= len && lo + len <= |v|
    && (forall x :: 0 <= x < done ==> counts[x] >= 0)
    && Sum(counts, 0, done) == len
    && (forall x, k :: 0 <= x < done && 0 <= k < counts[x] ==> InColumn(lt, p, v, lo, counts, x, k))
  }

  lemma {:induction false} PieceBelow(counts: seq<int>, done: int, x: int)
    requires 0 <= x < done <= |counts| && forall y :: 0 <= y < done ==> counts[y] >= 0
    ensures 0 <= Sum(counts, 0, x) && Sum(counts, 0, x) + counts[x] <= Sum(counts, 0, done)
    decreases done
  {
    var c := counts[..done];
    SumSame(counts, c, 0, x);
    SumSame(counts, c, 0, x + 1);
    SumSame(counts, c, 0, done);
    SumMonotone(c, 0, x + 1, done);
    SumNatural(c, 0, x);
  }

  /** Sorting a later row and counting it leaves the earlier pieces as they are. */
  lemma RowsKept<T(!new)>(lt: (T, T) -> bool, p: seq<T>, v: seq<T>, w: seq<T>, lo: int, c: seq<int>, c': seq<int>, done: int, len: int)
    requires RowsSplit(lt, p, v, lo, c, done, len) && |w| == |v| && |c'| == |c|
    requires forall z :: lo <= z < lo + len ==> w[z] == v[z]
    requires forall x :: 0 <= x < done ==> c'[x] == c[x]
    ensures RowsSplit(lt, p, w, lo, c', done, len)
  {
    SumSame(c, c', 0, done);
    forall x, k | 0 <= x < done && 0 <= k < c'[x]
      ensures InColumn(lt, p, w, lo, c', x, k)
    {
      SumSame(c, c', 0, x);
      PieceBelow(c, done, x);
      assert InColumn(lt, p, v, lo, c, x, k);
    }
  }

  /** A counted row joins the earlier ones. */
  lemma RowJoins<T(!new)>(lt: (T, T) -> bool, p: seq<T>, v: seq<T>, lo: int, counts: seq<int>, r: int, len: int, size: int)
    requires 0 <= r && RowsSplit(lt, p, v, lo, counts, r * (|p| + 1), len) && 0 <= size
    requires Counted(lt, p, v, lo + len, lo + len + size, counts, r * (|p| + 1))
    ensures RowsSplit(lt, p, v, lo, counts, (r + 1) * (|p| + 1), len + size)
  {
    var width := |p| + 1;
    var off := r * width;
    assert (r + 1) * width == off + width;
    SumSplit(counts, 0, off, off + width);
    forall x, k | 0 <= x < off + width && 0 <= k < counts[x]
      ensures InColumn(lt, p, v, lo, counts, x, k)
    {
      if off <= x {
        assert InSegment(lt, p, v, lo + len, counts, off, x, k);
        SumSplit(counts, 0, off, x);
        assert x == Pos(width, x - off, r);
        PosDivMod(width, x - off, r);
      }
    }
  }

  /** Where row r begins. */
  function RowStart(n: int, rowSize: int, r: int): int {
    if r * rowSize < n then r * rowSize else n
  }

  /** Full rows except for the last, which is not empty. */
  lemma RowSizes(n: int, rowSize: int, numR: int, r: int)
    requires 0 < n && 0 < rowSize && numR == (n + rowSize - 1) / rowSize && 0 <= r < numR
    ensures 0 <= r * rowSize < n && RowStart(n, rowSize, r) == r * rowSize
    ensures (if r < numR - 1 then rowSize else n - r * rowSize) == RowStart(n, rowSize, r + 1) - r * rowSize
    ensures 0 < RowStart(n, rowSize, r + 1) - r * rowSize <= rowSize
  {
    var q, e := n + rowSize - 1, (n + rowSize - 1) % rowSize;
    assert q == numR * rowSize + e;
    assert (numR - 1) * rowSize == numR * rowSize - rowSize;
    assert (numR - 1 - r) * rowSize == (numR - 1) * rowSize - r * rowSize;
    assert (r + 1) * rowSize == r * rowSize + rowSize;
    MulAtLeast(numR - 1 - r, rowSize);
    assert 0 <= r * rowSize;
  }

  lemma RowCount(n: int, rowSize: int, numR: int)
    requires 0 < n && 0 < rowSize && numR == (n + rowSize - 1) / rowSize
    ensures 0 < numR && n <= numR * rowSize && RowStart(n, rowSize, numR) == n && RowStart(n, rowSize, 0) == 0
  {
    assert n + rowSize - 1 == numR * rowSize + (n + rowSize - 1) % rowSize;
    MulAtLeast(numR, rowSize);
  }

  /** The least number of rows of that size that hold n cells, and half as many segments as the root
      leaves room for. */
  method Sizes(n: int, sq: int) returns (rowSize: int, numR: int, numSegs: int)
    requires 0 < n && 1 <= sq
    ensures rowSize == 2 * sq && numR == (n + rowSize - 1) / rowSize
    ensures (numR - 1) * rowSize < n <= numR * rowSize
    ensures 2 * numSegs < sq <= 2 * numSegs + 2
  {
    rowSize := sq * AVG_SEG_SIZE;
    numR := (n + rowSize - 1) / rowSize;
    numSegs := (sq - 1) / PIVOT_QUOT;
    assert n + rowSize - 1 == numR * rowSize + (n + rowSize - 1) % rowSize;
    assert (numR - 1) * rowSize == numR * rowSize - rowSize;
  }

  // ----- columns -----

  /** Where column c of pieces begins. */
  function Edge(ob: seq<int>, rows: int, segs: int, n: int, c: int): int
    requires 0 < rows && 0 <= c && |ob| == rows * segs
  {
    if c < segs then (NextCell(rows, c, 0, segs); PosInside(rows, 0, c, segs); ob[Pos(rows, 0, c)]) else n
  }

  /** Cells of column c hold exactly elements of segment c. */
  ghost predicate ColumnHolds<T(!new)>(lt: (T, T) -> bool, p: seq<T>, v: seq<T>, lo: int, from: int, to: int, c: int) {
    && 0 <= from <= to && 0 <= lo && lo + to <= |v|
    && (forall z :: lo + from <= z < lo + to ==> Segment(lt, p)(v[z]) == c)
  }

  ghost predicate ColumnOk<T(!new)>(lt: (T, T) -> bool, p: seq<T>, v: seq<T>, lo: int, n: int, ob: seq<int>, rows: int, c: int)
    requires 0 < rows && |ob| == rows * (|p| + 1) && 0 <= c <= |p|
  {
    ColumnHolds(lt, p, v, lo, Edge(ob, rows, |p| + 1, n, c), Edge(ob, rows, |p| + 1, n, c + 1), c)
  }

  /** The columns lie one after another and cover the range. */
  ghost predicate Columns<T(!new)>(lt: (T, T) -> bool, p: seq<T>, v: seq<T>, lo: int, n: int, ob: seq<int>, rows: int) {
    && 0 < rows && |ob| == rows * (|p| + 1)
    && Edge(ob, rows, |p| + 1, n, 0) == 0
    && (forall c :: 0 <= c <= |p| ==> ColumnOk(lt, p, v, lo, n, ob, rows, c))
  }

  lemma {:induction false} FoldIsSum(v: seq<int>, lo: int, hi: int)
    requires 0 <= lo && hi <= |v|
    ensures Sequence.Fold(Sequence.Plus(), 0, v, lo, hi) == Sum(v, lo, hi)
    decreases hi - lo
  {
    if lo < hi {
      FoldIsSum(v, lo, hi - 1);
    }
  }

  /** The scanned counts are the offsets of the pieces in both layouts. */
  method PrepareOffsets(segSizes: array<int>, numR: int, numSegs: int, scanBlock: int, orders: int -> Schedules.Order, transBlock: int)
    returns (offsetA: array<int>, offsetB: array<int>, ghost d: Layout)
    requires 0 < numR && 0 < numSegs && segSizes.Length == numR * numSegs && Natural(segSizes[..])
    requires 2 <= transBlock && 1 < scanBlock && forall n :: 0 <= n ==> Schedules.IsOrder(orders(n), n)
    ensures fresh(offsetA) && fresh(offsetB) && d.rows == numR && d.width == numSegs
    ensures Offsets(d, offsetA[..], offsetB[..], segSizes[..])
  {
    var cells := numR * numSegs;
    ghost var len := segSizes[..];
    offsetA := new int[cells](_ => 0);
    offsetB := new int[cells](_ => 0);
    Sequence.PlusAssociative();
    var _ := Sequence.Scan(offsetA, segSizes, 0, cells, Sequence.Plus(), 0, false, false, scanBlock, orders);
    Trans(segSizes, offsetB, numR, numSegs, transBlock);
    ghost var flipped := offsetB[..];
    var _ := Sequence.Scan(offsetB, offsetB, 0, cells, Sequence.Plus(), 0, false, false, scanBlock, orders);
    d := Layout(len, flipped, numR, numSegs);
    forall x | 0 <= x < cells
      ensures offsetA[x] == Sum(len, 0, x) && offsetB[x] == Sum(flipped, 0, x)
    {
      FoldIsSum(len, 0, x);
      FoldIsSum(flipped, 0, x);
    }
  }

  lemma CopiedBack<T(!new)>(v: seq<T>, t: seq<T>, w: seq<T>, lo: int, n: int)
    requires 0 <= n <= |w| && 0 <= lo && lo + n <= |v| == |t|
    requires multiset(w[..n]) == multiset(v[lo..lo + n])
    requires forall z :: lo <= z < lo + n ==> t[z] == w[z - lo]
    requires forall z :: 0 <= z < |v| && !(lo <= z < lo + n) ==> t[z] == v[z]
    ensures Permuted(v, t, lo, lo + n)
  {
    var here, there := t[lo..lo + n], w[..n];
    assert |here| == |there| && forall k :: 0 <= k < n ==> here[k] == there[k];
    assert here == there;
    assert t[..lo] == v[..lo] && t[lo + n..] == v[lo + n..];
    SameBag(v, t, lo, lo + n);
  }

  lemma SameBag<T(!new)>(v: seq<T>, t: seq<T>, lo: int, hi: int)
    requires 0 <= lo <= hi <= |v| == |t| && t[..lo] == v[..lo] && t[hi..] == v[hi..]
    requires multiset(t[lo..hi]) == multiset(v[lo..hi])
    ensures multiset(t) == multiset(v)
  {
    SplitBag(v, lo, hi);
    SplitBag(t, lo, hi);
  }

  /** The gathered pieces are the columns. */
  lemma ColumnsFromPieces<T(!new)>(lt: (T, T) -> bool, p: seq<T>, v: seq<T>, t: seq<T>, w: seq<T>, lo: int, n: int, d: Layout, ob: seq<int>)
    requires AllGathered(v, lo, w, d) && 0 < d.rows && d.width == |p| + 1 && RowsSplit(lt, p, v, lo, d.len, |d.len|, n)
    requires |ob| == |d.flipped| && forall y :: 0 <= y < |ob| ==> ob[y] == Sum(d.flipped, 0, y)
    requires |t| == |v| && forall z :: lo <= z < lo + n ==> t[z] == w[z - lo]
    ensures Columns(lt, p, t, lo, n, ob, d.rows)
  {
    hide AllGathered, Row, Col, Source;
    WholeParts(v, lo, w, d);
    PiecesCarry(lt, p, v, lo, d, n);
    SameTotal(d);
    assert Pos(d.rows, 0, 0) == 0;
    forall c | 0 <= c <= |p|
      ensures ColumnOk(lt, p, t, lo, n, ob, d.rows, c)
    {
      OneColumn(lt, p, v, t, w, lo, n, d, ob, c);
    }
  }

  lemma PiecesCarry<T(!new)>(lt: (T, T) -> bool, p: seq<T>, v: seq<T>, lo: int, d: Layout, n: int)
    requires d.Valid() && 0 < d.rows && d.width == |p| + 1 && RowsSplit(lt, p, v, lo, d.len, |d.len|, n)
    ensures forall x, k :: 0 <= x < |d.len| && 0 <= k < d.len[x] ==> CarriesColumn(v, lo, d, Segment(lt, p), x, k)
    ensures Sum(d.len, 0, |d.len|) == n
  {
    hide Col, Sum, Segment;
    forall x, k | 0 <= x < |d.len| && 0 <= k < d.len[x]
      ensures CarriesColumn(v, lo, d, Segment(lt, p), x, k)
    {
      assert InColumn(lt, p, v, lo, d.len, x, k);
    }
  }

  lemma OneColumn<T(!new)>(lt: (T, T) -> bool, p: seq<T>, v: seq<T>, t: seq<T>, w: seq<T>, lo: int, n: int, d: Layout, ob: seq<int>, c: int)
    requires AllGathered(v, lo, w, d) && 0 < d.rows && d.width == |p| + 1 && 0 <= c <= |p| && Sum(d.len, 0, |d.len|) == n
    requires forall x, k :: 0 <= x < |d.len| && 0 <= k < d.len[x] ==> CarriesColumn(v, lo, d, Segment(lt, p), x, k)
    requires |ob| == |d.flipped| && forall y :: 0 <= y < |ob| ==> ob[y] == Sum(d.flipped, 0, y)
    requires |t| == |v| && forall z :: lo <= z < lo + n ==> t[z] == w[z - lo]
    ensures d.Valid() && ColumnOk(lt, p, t, lo, n, ob, d.rows, c)
  {
    hide AllGathered, CarriesColumn, Row, Col, Source;
    WholeParts(v, lo, w, d);
    SameTotal(d);
    FlippedNatural(d);
    NextCell(d.rows, c, 0, d.width);
    NextCell(d.rows, c + 1, 0, d.width);
    var first, next := Pos(d.rows, 0, c), Pos(d.rows, 0, c + 1);
    if c < |p| { PosInside(d.rows, 0, c + 1, d.width); }
    assert next - first == d.rows;
    SumMonotone(d.flipped, 0, first, next);
    SumMonotone(d.flipped, 0, next, |d.flipped|);
    assert Edge(ob, d.rows, |p| + 1, n, c) == Sum(d.flipped, 0, first);
    assert Edge(ob, d.rows, |p| + 1, n, c + 1) == Sum(d.flipped, 0, next);
    forall z | lo + Sum(d.flipped, 0, first) <= z < lo + Sum(d.flipped, 0, next)
      ensures Segment(lt, p)(t[z]) == c
    {
      ColumnsGathered(v, lo, w, d, Segment(lt, p), c, z - lo);
    }
  }

  method CopyBack<T>(a: array<T>, lo: int, b: array<T>, n: int)
    requires 0 <= lo && 0 <= n <= b.Length && lo + n <= a.Length && a != b
    modifies a
    ensures forall z :: lo <= z < lo + n ==> a[z] == b[z - lo]
    ensures forall z :: 0 <= z < a.Length && !(lo <= z < lo + n) ==> a[z] == old(a[z])
  {
    for i := 0 to n
      invariant forall z :: lo <= z < lo + i ==> a[z] == b[z - lo]
      invariant forall z :: 0 <= z < a.Length && !(lo <= z < lo + i) ==> a[z] == old(a[z])
    {
      a[lo + i] := b[i];
    }
  }

  /** Scans, transposes, gathers the segments and copies them back. */
  method Distribute<T(!new)>(a: array<T>, lo: int, hi: int, pivots: array<T>, segSizes: array<int>, numR: int, rowSize: int,
                             lt: (T, T) -> bool, e: Setting)
    returns (offsetB: array<int>)
    requires e.Valid() && 0 <= lo < hi <= a.Length && 0 < numR && 0 < rowSize && hi - lo <= numR * rowSize
    requires segSizes.Length == numR * (pivots.Length + 1) && a != pivots && (a as object) != segSizes
    requires RowsSplit(lt, pivots[..], a[..], lo, segSizes[..], segSizes.Length, hi - lo)
    modifies a
    ensures fresh(offsetB) && Permuted(old(a[..]), a[..], lo, hi)
    ensures Columns(lt, pivots[..], a[..], lo, hi - lo, offsetB[..], numR)
  {
    hide RowsSplit, AllGathered, Columns, Permuted;
    var n := hi - lo;
    ghost var p, v := pivots[..], a[..];
    RowsParts(lt, p, v, lo, segSizes[..], n);
    var first := a[lo];
    var b := new T[numR * rowSize](_ => first);
    var offsetA;
    ghost var d;
    offsetA, offsetB, d := PrepareOffsets(segSizes, numR, pivots.Length + 1, e.scanBlock, e.orders, e.transBlock);
    BlockTrans(a, lo, b, offsetA, offsetB, segSizes, numR, pivots.Length + 1, e.transBlock, d);
    ghost var w, ob := b[..], offsetB[..];
    assert w[..n] == b[..n] && v[lo..lo + n] == a[lo..lo + n];
    CopyBack(a, lo, b, n);
    CopiedBack(v, a[..], w, lo, n);
    ColumnsFromPieces(lt, p, v, a[..], w, lo, n, d, ob);
  }

  lemma RowsParts<T(!new)>(lt: (T, T) -> bool, p: seq<T>, v: seq<T>, lo: int, counts: seq<int>, n: int)
    requires RowsSplit(lt, p, v, lo, counts, |counts|, n)
    ensures Natural(counts) && Sum(counts, 0, |counts|) == n
  {
  }

  // ----- sorting the columns -----

  lemma {:induction false} EdgesInside<T(!new)>(lt: (T, T) -> bool, p: seq<T>, v: seq<T>, lo: int, n: int, ob: seq<int>, rows: int, c: int)
    requires Columns(lt, p, v, lo, n, ob, rows) && 0 <= c <= |p|
    ensures 0 <= Edge(ob, rows, |p| + 1, n, c) <= Edge(ob, rows, |p| + 1, n, c + 1) <= n
    ensures lo >= 0 && lo + Edge(ob, rows, |p| + 1, n, c + 1) <= |v|
    decreases |p| - c
  {
    assert ColumnOk(lt, p, v, lo, n, ob, rows, c);
    if c < |p| {
      EdgesInside(lt, p, v, lo, n, ob, rows, c + 1);
    }
  }

  /** A segment that is sorted recursively lacks one of the first two pivots, so it is shorter than
      the range. */
  lemma ColumnShorter<T(!new)>(lt: (T, T) -> bool, p: seq<T>, v: seq<T>, lo: int, n: int, ob: seq<int>, rows: int, c: int)
    requires StrictWeak(lt) && 2 <= |p| && Columns(lt, p, v, lo, n, ob, rows) && 0 <= c <= |p|
    requires Sampled(lt, v, lo, lo + n, p)
    requires 0 < c < |p| ==> lt(p[c - 1], p[c])
    ensures Edge(ob, rows, |p| + 1, n, c + 1) - Edge(ob, rows, |p| + 1, n, c) < n
  {
    hide Edge, Segment;
    EdgesInside(lt, p, v, lo, n, ob, rows, c);
    PivotSegments(lt, p);
    assert ColumnOk(lt, p, v, lo, n, ob, rows, c);
    assert Within(v, lo, lo + n, p[0]) && Within(v, lo, lo + n, p[1]);
    var i :| lo <= i < lo + n && v[i] == p[0];
    var k :| lo <= k < lo + n && v[k] == p[1];
  }

  /** The columns before c are sorted and hold earlier segments. */
  ghost predicate SortedBelow<T(!new)>(lt: (T, T) -> bool, p: seq<T>, v: seq<T>, lo: int, edge: int, c: int) {
    && 0 <= lo && 0 <= edge && lo + edge <= |v|
    && Sorted(lt, v, lo, lo + edge)
    && (forall z :: lo <= z < lo + edge ==> Segment(lt, p)(v[z]) < c)
  }

  /** One more column is in order; the others stay as they are. */
  lemma ColumnSorted<T(!new)>(lt: (T, T) -> bool, p: seq<T>, v: seq<T>, t: seq<T>, lo: int, n: int, ob: seq<int>, rows: int, c: int)
    requires StrictWeak(lt) && Columns(lt, p, v, lo, n, ob, rows) && 0 <= c <= |p|
    requires SortedBelow(lt, p, v, lo, Edge(ob, rows, |p| + 1, n, c), c)
    requires Permuted(v, t, lo + Edge(ob, rows, |p| + 1, n, c), lo + Edge(ob, rows, |p| + 1, n, c + 1))
    requires Sorted(lt, t, lo + Edge(ob, rows, |p| + 1, n, c), lo + Edge(ob, rows, |p| + 1, n, c + 1))
    ensures Columns(lt, p, t, lo, n, ob, rows)
    ensures SortedBelow(lt, p, t, lo, Edge(ob, rows, |p| + 1, n, c + 1), c + 1)
  {
    hide Edge, Segment;
    EdgesInside(lt, p, v, lo, n, ob, rows, c);
    var from, to := lo + Edge(ob, rows, |p| + 1, n, c), lo + Edge(ob, rows, |p| + 1, n, c + 1);
    assert ColumnOk(lt, p, v, lo, n, ob, rows, c);
    forall z | from <= z < to
      ensures Segment(lt, p)(t[z]) == c
    {
      var i := PermutedFrom(v, t, from, to, z);
    }
    forall k | 0 <= k <= |p|
      ensures ColumnOk(lt, p, t, lo, n, ob, rows, k)
    {
      assert ColumnOk(lt, p, v, lo, n, ob, rows, k);
      forall z | lo + Edge(ob, rows, |p| + 1, n, k) <= z < lo + Edge(ob, rows, |p| + 1, n, k + 1)
        ensures Segment(lt, p)(t[z]) == k
      {
        assert Segment(lt, p)(v[z]) == k;
      }
    }
    SortedJoins(lt, p, t, lo, from, to, c);
  }

  lemma SortedJoins<T(!new)>(lt: (T, T) -> bool, p: seq<T>, t: seq<T>, lo: int, mid: int, hi: int, c: int)
    requires StrictWeak(lt) && 0 <= lo <= mid <= hi <= |t| && Sorted(lt, t, lo, mid) && Sorted(lt, t, mid, hi)
    requires forall z :: lo <= z < mid ==> Segment(lt, p)(t[z]) < c
    requires forall z :: mid <= z < hi ==> Segment(lt, p)(t[z]) == c
    ensures Sorted(lt, t, lo, hi)
  {
    forall i, k | lo <= i < k < hi
      ensures !lt(t[k], t[i])
    {
      if i < mid <= k {
        SegmentsOrdered(lt, p, t[i], t[k]);
      }
    }
  }

  /** A column between equal pivots is sorted as it stands. */
  lemma EqualColumn<T(!new)>(lt: (T, T) -> bool, p: seq<T>, v: seq<T>, lo: int, n: int, ob: seq<int>, rows: int, c: int)
    requires StrictWeak(lt) && Columns(lt, p, v, lo, n, ob, rows) && 0 < c < |p| && !lt(p[c - 1], p[c])
    ensures 0 <= lo && 0 <= Edge(ob, rows, |p| + 1, n, c) <= Edge(ob, rows, |p| + 1, n, c + 1) <= |v| - lo
    ensures Sorted(lt, v, lo + Edge(ob, rows, |p| + 1, n, c), lo + Edge(ob, rows, |p| + 1, n, c + 1))
  {
    hide Edge, Segment;
    EdgesInside(lt, p, v, lo, n, ob, rows, c);
    assert ColumnOk(lt, p, v, lo, n, ob, rows, c);
    var from, to := lo + Edge(ob, rows, |p| + 1, n, c), lo + Edge(ob, rows, |p| + 1, n, c + 1);
    forall i, k | from <= i < k < to
      ensures !lt(v[k], v[i])
    {
      SegmentOfEquals(lt, p, c, v[i], v[k]);
    }
  }

  // ----- the sort -----

  /** Sorts each row and counts its segments. */
  method SortRows<T(!new)>(a: array<T>, lo: int, hi: int, pivots: array<T>, segSizes: array<int>, numR: int, rowSize: int,
                           lt: (T, T) -> bool, e: Setting)
    requires StrictWeak(lt) && e.Valid() && 0 <= lo < hi <= a.Length && 0 < rowSize < hi - lo
    requires numR == (hi - lo + rowSize - 1) / rowSize && 0 < pivots.Length && segSizes.Length == numR * (pivots.Length + 1)
    requires a != pivots && (a as object) != segSizes && (segSizes as object) != pivots
    modifies a, segSizes
    ensures Permuted(old(a[..]), a[..], lo, hi)
    ensures RowsSplit(lt, pivots[..], a[..], lo, segSizes[..], segSizes.Length, hi - lo)
    decreases hi - lo, 0
  {
    hide RowsSplit, Permuted, Counted;
    var n, numSegs := hi - lo, pivots.Length + 1;
    ghost var p, s := pivots[..], a[..];
    RowCount(n, rowSize, numR);
    NoRows(lt, p, s, lo, hi, segSizes[..]);
    for r := 0 to numR
      invariant pivots[..] == p && Permuted(s, a[..], lo, hi)
      invariant RowsSplit(lt, p, a[..], lo, segSizes[..], r * numSegs, RowStart(n, rowSize, r))
    {
      ghost var v, c := a[..], segSizes[..];
      RowSizes(n, rowSize, numR, r);
      var offset := r * rowSize;
      var size := if r < numR - 1 then rowSize else n - offset;
      SampleSort(a, lo + offset, lo + offset + size, lt, e);
      PermutedWiden(v, a[..], lo + offset, lo + offset + size, lo, hi);
      PermutedTrans(s, v, a[..], lo, hi);
      RowInside(r, numR, numSegs);
      ghost var w := a[..];
      MergeSeq(a, lo + offset, lo + offset + size, pivots, segSizes, r * numSegs, lt);
      PermutedOutside(v, w, lo + offset, lo + offset + size);
      RowsKept(lt, p, v, w, lo, c, segSizes[..], r * numSegs, offset);
      RowJoins(lt, p, w, lo, segSizes[..], r, offset, size);
    }
  }

  lemma NoRows<T(!new)>(lt: (T, T) -> bool, p: seq<T>, v: seq<T>, lo: int, hi: int, counts: seq<int>)
    requires 0 <= lo <= hi <= |v|
    ensures Permuted(v, v, lo, hi) && RowsSplit(lt, p, v, lo, counts, 0, 0)
  {
  }

  lemma RowInside(r: int, numR: int, numSegs: int)
    requires 0 <= r < numR && 0 < numSegs
    ensures 0 <= r * numSegs && r * numSegs + numSegs <= numR * numSegs && (r + 1) * numSegs == r * numSegs + numSegs
  {
    var rest := numR - 1 - r;
    assert 0 <= rest * numSegs && 0 <= r * numSegs;
    assert numR * numSegs == rest * numSegs + r * numSegs + numSegs;
  }

  lemma PermutedOutside<T(!new)>(v: seq<T>, w: seq<T>, lo: int, hi: int)
    requires Permuted(v, w, lo, hi)
    ensures |v| == |w| && forall z :: 0 <= z < lo || hi <= z < |v| ==> w[z] == v[z]
  {
  }

  /** Sorts the segments one by one, except for those between equal pivots. */
  method SortColumns<T(!new)>(a: array<T>, lo: int, hi: int, pivots: array<T>, offsetB: array<int>, numR: int,
                              lt: (T, T) -> bool, e: Setting)
    requires StrictWeak(lt) && e.Valid() && 0 <= lo < hi <= a.Length && 2 <= pivots.Length && 0 < numR
    requires offsetB.Length == numR * (pivots.Length + 1) && a != pivots && (a as object) != offsetB
    requires Columns(lt, pivots[..], a[..], lo, hi - lo, offsetB[..], numR)
    requires Sampled(lt, a[..], lo, hi, pivots[..])
    modifies a
    ensures Permuted(old(a[..]), a[..], lo, hi) && Sorted(lt, a[..], lo, hi)
    decreases hi - lo, 0
  {
    hide Columns, SortedBelow, Sampled, Permuted, Edge;
    var n, numSegs := hi - lo, pivots.Length + 1;
    ghost var p, ob, s := pivots[..], offsetB[..], a[..];
    ColumnsStart(lt, p, s, lo, n, ob, numR);
    for i := 0 to numSegs
      invariant pivots[..] == p && offsetB[..] == ob && Permuted(s, a[..], lo, hi)
      invariant Columns(lt, p, a[..], lo, n, ob, numR) && SortedBelow(lt, p, a[..], lo, Edge(ob, numR, numSegs, n, i), i)
    {
      ghost var v := a[..];
      SampledKept(lt, s, v, lo, hi, p);
      EdgesInside(lt, p, v, lo, n, ob, numR, i);
      EdgeIs(ob, numR, numSegs, n, i);
      ghost var from, to := lo + Edge(ob, numR, numSegs, n, i), lo + Edge(ob, numR, numSegs, n, i + 1);
      if i == 0 {
        ColumnShorter(lt, p, v, lo, n, ob, numR, i);
        ColumnsStart(lt, p, v, lo, n, ob, numR);
        SampleSort(a, lo, lo + offsetB[numR], lt, e);
      } else if i < numSegs - 1 {
        if lt(pivots[i - 1], pivots[i]) {
          ColumnShorter(lt, p, v, lo, n, ob, numR, i);
          SampleSort(a, lo + offsetB[i * numR], lo + offsetB[(i + 1) * numR], lt, e);
        } else {
          EqualColumn(lt, p, v, lo, n, ob, numR, i);
          PermutedSelf(v, from, to);
        }
      } else {
        ColumnShorter(lt, p, v, lo, n, ob, numR, i);
        SampleSort(a, lo + offsetB[i * numR], lo + n, lt, e);
      }
      ColumnSorted(lt, p, v, a[..], lo, n, ob, numR, i);
      PermutedWiden(v, a[..], from, to, lo, hi);
      PermutedTrans(s, v, a[..], lo, hi);
    }
    SortedAll(lt, p, a[..], lo, n, ob, numR);
  }

  lemma ColumnsStart<T(!new)>(lt: (T, T) -> bool, p: seq<T>, v: seq<T>, lo: int, n: int, ob: seq<int>, rows: int)
    requires Columns(lt, p, v, lo, n, ob, rows)
    ensures 0 < rows && |ob| == rows * (|p| + 1) && Edge(ob, rows, |p| + 1, n, 0) == 0
    ensures SortedBelow(lt, p, v, lo, Edge(ob, rows, |p| + 1, n, 0), 0)
    ensures 0 <= lo <= lo + n <= |v| && Permuted(v, v, lo, lo + n)
  {
    EdgesInside(lt, p, v, lo, n, ob, rows, 0);
    EdgesInside(lt, p, v, lo, n, ob, rows, |p|);
  }

  lemma SortedAll<T(!new)>(lt: (T, T) -> bool, p: seq<T>, v: seq<T>, lo: int, n: int, ob: seq<int>, rows: int)
    requires 0 < rows && |ob| == rows * (|p| + 1)
    requires SortedBelow(lt, p, v, lo, Edge(ob, rows, |p| + 1, n, |p| + 1), |p| + 1)
    ensures 0 <= lo && 0 <= n && lo + n <= |v| && Sorted(lt, v, lo, lo + n)
  {
  }

  lemma EdgeIs(ob: seq<int>, rows: int, segs: int, n: int, c: int)
    requires 0 < rows && 0 <= c < segs && |ob| == rows * segs
    ensures 0 <= c * rows < |ob| && Edge(ob, rows, segs, n, c) == ob[c * rows]
    ensures c + 1 < segs ==> 0 <= (c + 1) * rows < |ob| && Edge(ob, rows, segs, n, c + 1) == ob[(c + 1) * rows]
    ensures c + 1 == segs ==> Edge(ob, rows, segs, n, c + 1) == n
  {
    PosInside(rows, 0, c, segs);
    if c + 1 < segs { PosInside(rows, 0, c + 1, segs); }
  }

  /** Sample sort: sorts any range under any strict weak order, whatever the hash picks, and every
      recursive call gets a strictly shorter range. */
  method SampleSort<T(!new)>(a: array<T>, lo: int, hi: int, lt: (T, T) -> bool, e: Setting)
    requires StrictWeak(lt) && e.Valid() && 0 <= lo <= hi <= a.Length
    modifies a
    ensures Permuted(old(a[..]), a[..], lo, hi) && Sorted(lt, a[..], lo, hi)
    decreases hi - lo, 1
  {
    var n := hi - lo;
    if n < e.threshold {
      ThreeWay.QuickSort(a, lo, hi, lt);
      return;
    }
    hide Columns, RowsSplit, Sampled, Permuted, Sorted;
    var sq := e.root(n);
    assert RootFits(sq, n);
    var rowSize, numR, numSegs := Sizes(n, sq);
    RowCount(n, rowSize, numR);
    ghost var s := a[..];
    var pivots := ChoosePivots(a, lo, hi, numSegs, e.hash, lt);
    ghost var p := pivots[..];
    MulAtLeast(numR, numSegs);
    var segSizes := new int[numR * numSegs](_ => 0);
    SortRows(a, lo, hi, pivots, segSizes, numR, rowSize, lt, e);
    ghost var v := a[..];
    SampledKept(lt, s, v, lo, hi, p);
    var offsetB := Distribute(a, lo, hi, pivots, segSizes, numR, rowSize, lt, e);
    ghost var w := a[..];
    PermutedTrans(s, v, w, lo, hi);
    SampledKept(lt, v, w, lo, hi, p);
    SortColumns(a, lo, hi, pivots, offsetB, numR, lt, e);
    PermutedTrans(s, w, a[..], lo, hi);
  }
}
