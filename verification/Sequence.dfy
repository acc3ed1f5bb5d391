/** Blocked reductions, scans, packing and flag sums of sequence.h. */
module Sequence {
  import opened Schedules
  import opened Strides

  predicate Three<T>(x: T, y: T, z: T) { true }

  ghost predicate Associative<T(!new)>(f: (T, T) -> T) {
    forall x, y, z {:trigger Three(x, y, z)} :: Three(x, y, z) ==> f(f(x, y), z) == f(x, f(y, z))
  }

  lemma Associate<T(!new)>(f: (T, T) -> T, x: T, y: T, z: T)
    requires Associative(f)
    ensures f(f(x, y), z) == f(x, f(y, z))
  {
    assert Three(x, y, z);
  }

  // ----- folds -----

  /** z combined with cells lo..hi-1 from left to right. */
  function Fold<T>(f: (T, T) -> T, z: T, v: seq<T>, lo: int, hi: int): T
    requires 0 <= lo && hi <= |v|
    decreases hi - lo
  {
    if lo >= hi then z else f(Fold(f, z, v, lo, hi - 1), v[hi - 1])
  }

  /** The cells of a nonempty range combined among themselves. */
  function Reduction<T>(f: (T, T) -> T, v: seq<T>, lo: int, hi: int): T
    requires 0 <= lo < hi <= |v|
  {
    Fold(f, v[lo], v, lo + 1, hi)
  }

  lemma {:induction false} FoldSplit<T(!new)>(f: (T, T) -> T, z: T, v: seq<T>, lo: int, mid: int, hi: int)
    requires 0 <= lo <= mid <= hi <= |v|
    ensures Fold(f, z, v, lo, hi) == Fold(f, Fold(f, z, v, lo, mid), v, mid, hi)
    decreases hi
  {
    if mid < hi {
      FoldSplit(f, z, v, lo, mid, hi - 1);
    }
  }

  /** For an associative operation a range may be combined first. */
  lemma {:induction false} FoldReduction<T(!new)>(f: (T, T) -> T, z: T, v: seq<T>, lo: int, hi: int)
    requires Associative(f) && 0 <= lo < hi <= |v|
    ensures Fold(f, z, v, lo, hi) == f(z, Reduction(f, v, lo, hi))
    decreases hi
  {
    if lo + 1 < hi {
      FoldReduction(f, z, v, lo, hi - 1);
      Associate(f, z, Reduction(f, v, lo, hi - 1), v[hi - 1]);
    } else {
      assert Fold(f, z, v, lo, lo) == z;
    }
  }

  lemma {:induction false} FoldSame<T(!new)>(f: (T, T) -> T, z: T, v: seq<T>, w: seq<T>, lo: int, hi: int)
    requires 0 <= lo && hi <= |v| && hi <= |w| && forall i :: lo <= i < hi ==> v[i] == w[i]
    ensures Fold(f, z, v, lo, hi) == Fold(f, z, w, lo, hi)
    decreases hi - lo
  {
    if lo < hi {
      FoldSame(f, z, v, w, lo, hi - 1);
    }
  }

  // ----- blocks -----

  /** C division truncates toward zero, so an empty range has one block. */
  function NBlocks(n: int, bsize: int): (l: int)
    requires 0 <= n && 0 < bsize
    ensures n == 0 ==> l == 1
    ensures 1 <= l
  {
    if n == 0 then 1 else 1 + (n - 1) / bsize
  }

  function BlockStart(s: int, bsize: int, i: int): int {
    s + i * bsize
  }

  function BlockEnd(s: int, e: int, bsize: int, i: int): int {
    if BlockStart(s, bsize, i) + bsize < e then BlockStart(s, bsize, i) + bsize else e
  }

  function BlockOf(s: int, bsize: int, x: int): int
    requires 0 < bsize
  {
    Row(bsize, x - s)
  }

  /** Blocks are nonempty, adjacent and end at the end of the range. */
  lemma BlockBounds(s: int, e: int, bsize: int, i: int)
    requires 0 <= s < e && 0 < bsize && 0 <= i < NBlocks(e - s, bsize)
    ensures s <= BlockStart(s, bsize, i) < BlockEnd(s, e, bsize, i) <= e
    ensures BlockEnd(s, e, bsize, i) == if i + 1 < NBlocks(e - s, bsize) then BlockStart(s, bsize, i + 1) else e
  {
    var n, q := e - s, (e - s - 1) / bsize;
    assert n - 1 == q * bsize + (n - 1) % bsize;
    assert (q - i) * bsize == q * bsize - i * bsize;
    assert (i + 1) * bsize == i * bsize + bsize;
    assert 0 <= i * bsize;
    MulAtLeast(q - i, bsize);
  }

  /** All blocks but the last one have bsize cells, and the last one no more. */
  lemma BlockSizes(s: int, e: int, bsize: int, i: int)
    requires 0 <= s < e && 0 < bsize && 0 <= i < NBlocks(e - s, bsize)
    ensures BlockEnd(s, e, bsize, i) - BlockStart(s, bsize, i) <= bsize
    ensures i + 1 < NBlocks(e - s, bsize) ==> BlockEnd(s, e, bsize, i) - BlockStart(s, bsize, i) == bsize
  {
    BlockBounds(s, e, bsize, i);
    assert (i + 1) * bsize == i * bsize + bsize;
  }

  lemma InBlock(s: int, e: int, bsize: int, x: int)
    requires 0 <= s <= x < e && 0 < bsize
    ensures 0 <= BlockOf(s, bsize, x) < NBlocks(e - s, bsize)
    ensures BlockStart(s, bsize, BlockOf(s, bsize, x)) <= x < BlockEnd(s, e, bsize, BlockOf(s, bsize, x))
  {
    var q, r := (x - s) / bsize, (x - s) % bsize;
    assert x - s == q * bsize + r;
    var k := (e - s - 1) / bsize;
    assert e - s - 1 == k * bsize + (e - s - 1) % bsize;
    assert (q - k) * bsize == q * bsize - k * bsize;
    MulAtLeast(q - k, bsize);
  }

  lemma BlockOfCell(s: int, e: int, bsize: int, i: int, x: int)
    requires 0 <= s < e && 0 < bsize && 0 <= i && BlockStart(s, bsize, i) <= x < BlockEnd(s, e, bsize, i)
    ensures s <= x && BlockOf(s, bsize, x) == i
  {
    assert 0 <= i * bsize;
    var c := x - BlockStart(s, bsize, i);
    PosDivMod(bsize, c, i);
  }

  // ----- reductions -----

  method ReduceSerial<T(!new)>(a: array<T>, s: int, e: int, f: (T, T) -> T) returns (r: T)
    requires 0 <= s < e <= a.Length
    ensures r == Reduction(f, a[..], s, e)
  {
    r := a[s];
    for j := s + 1 to e
      invariant r == Fold(f, a[s], a[..], s + 1, j)
    {
      r := f(r, a[j]);
    }
  }

  /** The reductions of the blocks, each written by its own thread, in any order. */
  method ReduceBlocks<T(!new)>(a: array<T>, s: int, e: int, f: (T, T) -> T, bsize: int, order: Order, sums: array<T>)
    requires 0 <= s < e <= a.Length && 0 < bsize && IsOrder(order, NBlocks(e - s, bsize)) && sums != a
    requires sums.Length == NBlocks(e - s, bsize)
    modifies sums
    ensures forall i :: 0 <= i < sums.Length ==> IsReduction(f, a[..], s, e, bsize, sums[..], i)
  {
    var l := NBlocks(e - s, bsize);
    for t := 0 to l
      invariant forall i :: 0 <= i < l && order.place[i] < t ==> IsReduction(f, a[..], s, e, bsize, sums[..], i)
    {
      var i := order.at[t];
      BlockBounds(s, e, bsize, i);
      ghost var before := sums[..];
      sums[i] := ReduceSerial(a, BlockStart(s, bsize, i), BlockEnd(s, e, bsize, i), f);
      forall k | 0 <= k < l && order.place[k] < t + 1
        ensures IsReduction(f, a[..], s, e, bsize, sums[..], k)
      {
        assert k != i ==> IsReduction(f, a[..], s, e, bsize, before, k);
      }
    }
  }

  ghost predicate IsReduction<T(!new)>(f: (T, T) -> T, v: seq<T>, s: int, e: int, bsize: int, sums: seq<T>, i: int) {
    && 0 <= i < |sums| && 0 <= BlockStart(s, bsize, i) < BlockEnd(s, e, bsize, i) <= |v|
    && sums[i] == Reduction(f, v, BlockStart(s, bsize, i), BlockEnd(s, e, bsize, i))
  }

  /** Folding the block reductions is folding the cells. */
  lemma {:induction false} FoldBlocks<T(!new)>(f: (T, T) -> T, z: T, v: seq<T>, s: int, e: int, bsize: int, sums: seq<T>, i: int)
    requires Associative(f) && 0 <= s < e <= |v| && 0 < bsize && |sums| == NBlocks(e - s, bsize)
    requires forall k :: 0 <= k < |sums| ==> IsReduction(f, v, s, e, bsize, sums, k)
    requires 0 <= i <= |sums|
    ensures s <= (if i < |sums| then BlockStart(s, bsize, i) else e) <= e
    ensures Fold(f, z, sums, 0, i) == Fold(f, z, v, s, if i < |sums| then BlockStart(s, bsize, i) else e)
    decreases i
  {
    if 0 < i {
      FoldBlocks(f, z, v, s, e, bsize, sums, i - 1);
      BlockBounds(s, e, bsize, i - 1);
      var lo, hi := BlockStart(s, bsize, i - 1), BlockEnd(s, e, bsize, i - 1);
      assert IsReduction(f, v, s, e, bsize, sums, i - 1);
      FoldSplit(f, z, v, s, lo, hi);
      FoldReduction(f, Fold(f, z, v, s, lo), v, lo, hi);
    }
    if i < |sums| {
      BlockBounds(s, e, bsize, i);
    }
  }

  /** The recursive blocked reduction equals the serial one. */
  method Reduce<T(!new)>(a: array<T>, s: int, e: int, f: (T, T) -> T, bsize: int, orders: int -> Order) returns (r: T)
    requires Associative(f) && 0 <= s < e <= a.Length && 1 < bsize && forall n :: 0 <= n ==> IsOrder(orders(n), n)
    ensures r == Reduction(f, a[..], s, e)
    decreases e - s
  {
    var l := NBlocks(e - s, bsize);
    if l <= 1 {
      r := ReduceSerial(a, s, e, f);
      return;
    }
    var any := a[s];
    var sums := new T[l](_ => any);
    ReduceBlocks(a, s, e, f, bsize, orders(l), sums);
    FewerBlocks(e - s, bsize);
    r := Reduce(sums, 0, l, f, bsize, orders);
    ghost var v, w := a[..], sums[..];
    BlockBounds(s, e, bsize, 0);
    ReductionBlocks(f, v, s, e, bsize, w);
  }

  lemma Doubled(q: int, b: int)
    requires 0 <= q && 2 <= b
    ensures 2 * q <= q * b
  {
    assert 0 <= q * (b - 2);
  }

  lemma FewerBlocks(n: int, bsize: int)
    requires 0 <= n && 1 < bsize && 1 < NBlocks(n, bsize)
    ensures NBlocks(n, bsize) < n
  {
    Doubled((n - 1) / bsize, bsize);
  }

  lemma {:induction false} ReductionPrefix<T(!new)>(f: (T, T) -> T, v: seq<T>, s: int, e: int, bsize: int, sums: seq<T>, i: int)
    requires Associative(f) && 0 <= s < e <= |v| && 0 < bsize && |sums| == NBlocks(e - s, bsize)
    requires forall k :: 0 <= k < |sums| ==> IsReduction(f, v, s, e, bsize, sums, k)
    requires 0 < i <= |sums|
    ensures s < (if i < |sums| then BlockStart(s, bsize, i) else e) <= e
    ensures Reduction(f, sums, 0, i) == Reduction(f, v, s, if i < |sums| then BlockStart(s, bsize, i) else e)
    decreases i
  {
    BlockBounds(s, e, bsize, i - 1);
    assert IsReduction(f, v, s, e, bsize, sums, i - 1);
    if 1 < i {
      ReductionPrefix(f, v, s, e, bsize, sums, i - 1);
      var lo, hi := BlockStart(s, bsize, i - 1), BlockEnd(s, e, bsize, i - 1);
      FoldSplit(f, v[s], v, s + 1, lo, hi);
      FoldReduction(f, Fold(f, v[s], v, s + 1, lo), v, lo, hi);
    } else {
      assert Fold(f, sums[0], sums, 1, 1) == sums[0];
    }
  }

  lemma ReductionBlocks<T(!new)>(f: (T, T) -> T, v: seq<T>, s: int, e: int, bsize: int, sums: seq<T>)
    requires Associative(f) && 0 <= s < e <= |v| && 0 < bsize && |sums| == NBlocks(e - s, bsize)
    requires forall k :: 0 <= k < |sums| ==> IsReduction(f, v, s, e, bsize, sums, k)
    ensures 0 < |sums| && Reduction(f, sums, 0, |sums|) == Reduction(f, v, s, e)
  {
    BlockBounds(s, e, bsize, 0);
    ReductionPrefix(f, v, s, e, bsize, sums, |sums|);
  }

  // ----- scans -----

  /** z combined with cells lo..hi-1 from right to left. */
  function FoldBack<T>(f: (T, T) -> T, z: T, v: seq<T>, lo: int, hi: int): T
    requires 0 <= lo && hi <= |v|
    decreases hi - lo
  {
    if lo >= hi then z else f(FoldBack(f, z, v, lo + 1, hi), v[lo])
  }

  lemma {:induction false} FoldBackSplit<T(!new)>(f: (T, T) -> T, z: T, v: seq<T>, lo: int, mid: int, hi: int)
    requires 0 <= lo <= mid <= hi <= |v|
    ensures FoldBack(f, z, v, lo, hi) == FoldBack(f, FoldBack(f, z, v, mid, hi), v, lo, mid)
    decreases mid - lo
  {
    if lo < mid {
      FoldBackSplit(f, z, v, lo + 1, mid, hi);
    }
  }

  lemma {:induction false} FoldBackSame<T(!new)>(f: (T, T) -> T, z: T, v: seq<T>, w: seq<T>, lo: int, hi: int)
    requires 0 <= lo && hi <= |v| && hi <= |w| && forall i :: lo <= i < hi ==> v[i] == w[i]
    ensures FoldBack(f, z, v, lo, hi) == FoldBack(f, z, w, lo, hi)
    decreases hi - lo
  {
    if lo < hi {
      FoldBackSame(f, z, v, w, lo + 1, hi);
    }
  }

  /** What a scan of s..e-1 leaves in cell i: the fold of the cells before it in scan order. */
  function Scanned<T>(f: (T, T) -> T, zero: T, v: seq<T>, s: int, e: int, inclusive: bool, back: bool, i: int): T
    requires 0 <= s <= i < e <= |v|
  {
    if back then FoldBack(f, zero, v, if inclusive then i else i + 1, e)
    else Fold(f, zero, v, s, if inclusive then i + 1 else i)
  }

  /** The first cell of an exclusive scan holds zero, the next one in scan order what an inclusive scan
      leaves here, and that is one more element combined with what an exclusive scan leaves here. */
  lemma ScannedSteps<T(!new)>(f: (T, T) -> T, zero: T, v: seq<T>, s: int, e: int, back: bool, i: int)
    requires 0 <= s <= i < e <= |v|
    ensures Scanned(f, zero, v, s, e, true, back, i) == f(Scanned(f, zero, v, s, e, false, back, i), v[i])
    ensures var first, next := if back then e - 1 else s, if back then i - 1 else i + 1;
            && Scanned(f, zero, v, s, e, false, back, first) == zero
            && (s <= next < e ==> Scanned(f, zero, v, s, e, false, back, next) == Scanned(f, zero, v, s, e, true, back, i))
  {
  }

  /** The last cell of an inclusive scan holds the total. */
  lemma ScannedTotal<T(!new)>(f: (T, T) -> T, zero: T, v: seq<T>, s: int, e: int, back: bool)
    requires 0 <= s < e <= |v|
    ensures Folded(f, zero, v, s, e, back) == Scanned(f, zero, v, s, e, true, back, if back then s else e - 1)
  {
  }

  function Folded<T>(f: (T, T) -> T, zero: T, v: seq<T>, s: int, e: int, back: bool): T
    requires 0 <= s && e <= |v|
  {
    if back then FoldBack(f, zero, v, s, e) else Fold(f, zero, v, s, e)
  }

  /** The serial scan in either direction, which may write over its own input. */
  method ScanSerial<T(!new)>(out: array<T>, a: array<T>, s: int, e: int, f: (T, T) -> T, zero: T, inclusive: bool, back: bool)
    returns (r: T)
    requires 0 <= s <= e <= a.Length && e <= out.Length
    modifies out
    ensures forall i :: s <= i < e ==> out[i] == Scanned(f, zero, old(a[..]), s, e, inclusive, back, i)
    ensures forall i :: 0 <= i < out.Length && !(s <= i < e) ==> out[i] == old(out[i])
    ensures r == Folded(f, zero, old(a[..]), s, e, back)
  {
    if back {
      r := ScanSerialBack(out, a, s, e, f, zero, inclusive);
    } else {
      r := ScanSerialForward(out, a, s, e, f, zero, inclusive);
    }
  }

  method ScanSerialForward<T(!new)>(out: array<T>, a: array<T>, s: int, e: int, f: (T, T) -> T, zero: T, inclusive: bool)
    returns (r: T)
    requires 0 <= s <= e <= a.Length && e <= out.Length
    modifies out
    ensures forall i :: s <= i < e ==> out[i] == Scanned(f, zero, old(a[..]), s, e, inclusive, false, i)
    ensures forall i :: 0 <= i < out.Length && !(s <= i < e) ==> out[i] == old(out[i])
    ensures r == Fold(f, zero, old(a[..]), s, e)
  {
    ghost var v := a[..];
    r := zero;
    for i := s to e
      invariant r == Fold(f, zero, v, s, i)
      invariant forall k :: s <= k < i ==> out[k] == Scanned(f, zero, v, s, e, inclusive, false, k)
      invariant forall k :: 0 <= k < out.Length && !(s <= k < i) ==> out[k] == old(out[k])
      invariant forall k :: i <= k < e ==> a[k] == v[k]
    {
      if inclusive {
        r := f(r, a[i]);
        out[i] := r;
      } else {
        var t := a[i];
        out[i] := r;
        r := f(r, t);
      }
    }
  }

  method ScanSerialBack<T(!new)>(out: array<T>, a: array<T>, s: int, e: int, f: (T, T) -> T, zero: T, inclusive: bool)
    returns (r: T)
    requires 0 <= s <= e <= a.Length && e <= out.Length
    modifies out
    ensures forall i :: s <= i < e ==> out[i] == Scanned(f, zero, old(a[..]), s, e, inclusive, true, i)
    ensures forall i :: 0 <= i < out.Length && !(s <= i < e) ==> out[i] == old(out[i])
    ensures r == FoldBack(f, zero, old(a[..]), s, e)
  {
    ghost var v := a[..];
    r := zero;
    for i := e downto s
      invariant r == FoldBack(f, zero, v, i, e)
      invariant forall k :: i <= k < e ==> out[k] == Scanned(f, zero, v, s, e, inclusive, true, k)
      invariant forall k :: 0 <= k < out.Length && !(i <= k < e) ==> out[k] == old(out[k])
      invariant forall k :: s <= k < i ==> a[k] == v[k]
    {
      if inclusive {
        r := f(r, a[i]);
        out[i] := r;
      } else {
        var t := a[i];
        out[i] := r;
        r := f(r, t);
      }
    }
  }

  /** The reductions of all blocks: always from left to right, whatever the direction of the scan. */
  ghost function BlockSums<T(!new)>(f: (T, T) -> T, v: seq<T>, s: int, e: int, bsize: int): (w: seq<T>)
    requires 0 <= s < e <= |v| && 0 < bsize
    ensures |w| == NBlocks(e - s, bsize) && forall i :: 0 <= i < |w| ==> IsReduction(f, v, s, e, bsize, w, i)
  {
    AllBounds(s, e, bsize);
    seq(NBlocks(e - s, bsize), i requires 0 <= i < NBlocks(e - s, bsize) =>
      Reduction(f, v, BlockStart(s, bsize, i), BlockEnd(s, e, bsize, i)))
  }

  lemma AllBounds(s: int, e: int, bsize: int)
    requires 0 <= s < e && 0 < bsize
    ensures forall i :: 0 <= i < NBlocks(e - s, bsize) ==>
              s <= BlockStart(s, bsize, i) < BlockEnd(s, e, bsize, i) <= e
  {
    forall i | 0 <= i < NBlocks(e - s, bsize)
      ensures s <= BlockStart(s, bsize, i) < BlockEnd(s, e, bsize, i) <= e
    {
      BlockBounds(s, e, bsize, i);
    }
  }

  /** What the blocked scan leaves in cell i: its block is scanned from what the blocked scan of the
      block reductions leaves for that block. */
  ghost function ScanOf<T(!new)>(f: (T, T) -> T, zero: T, v: seq<T>, s: int, e: int, inclusive: bool, back: bool, bsize: int, i: int): T
    requires 0 <= s <= i < e <= |v| && 1 < bsize
    decreases e - s
  {
    var l := NBlocks(e - s, bsize);
    if l <= 2 then Scanned(f, zero, v, s, e, inclusive, back, i)
    else
      FewerBlocks(e - s, bsize);
      InBlock(s, e, bsize, i);
      BlockBounds(s, e, bsize, BlockOf(s, bsize, i));
      InOwnBlock(f, ScanOf(f, zero, BlockSums(f, v, s, e, bsize), 0, l, false, back, bsize, BlockOf(s, bsize, i)),
                 v, s, e, inclusive, back, bsize, i)
  }

  /** Cell i in a scan of its own block from an offset. */
  ghost function InOwnBlock<T(!new)>(f: (T, T) -> T, offset: T, v: seq<T>, s: int, e: int, inclusive: bool, back: bool, bsize: int, i: int): T
    requires 0 <= s <= i < e <= |v| && 0 < bsize
  {
    InBlock(s, e, bsize, i);
    BlockBounds(s, e, bsize, BlockOf(s, bsize, i));
    Scanned(f, offset, v, BlockStart(s, bsize, BlockOf(s, bsize, i)), BlockEnd(s, e, bsize, BlockOf(s, bsize, i)), inclusive, back, i)
  }

  ghost function TotalOf<T(!new)>(f: (T, T) -> T, zero: T, v: seq<T>, s: int, e: int, back: bool, bsize: int): T
    requires 0 <= s <= e <= |v| && 1 < bsize
    decreases e - s
  {
    var l := NBlocks(e - s, bsize);
    if l <= 2 then Folded(f, zero, v, s, e, back)
    else
      FewerBlocks(e - s, bsize);
      TotalOf(f, zero, BlockSums(f, v, s, e, bsize), 0, l, back, bsize)
  }

  /** The blocked recursive scan: block reductions, their exclusive scan in place, and a serial scan
      of every block from its offset, the blocks in any order. For an associative operation it leaves
      what the serial scan does, backward if the operation is commutative too. */
  method Scan<T(!new)>(out: array<T>, a: array<T>, s: int, e: int, f: (T, T) -> T, zero: T, inclusive: bool, back: bool,
                       bsize: int, orders: int -> Order)
    returns (total: T)
    requires 0 <= s <= e <= a.Length && e <= out.Length
    requires 1 < bsize && forall n :: 0 <= n ==> IsOrder(orders(n), n)
    modifies out
    ensures forall i :: s <= i < e ==> out[i] == ScanOf(f, zero, old(a[..]), s, e, inclusive, back, bsize, i)
    ensures forall i :: 0 <= i < out.Length && !(s <= i < e) ==> out[i] == old(out[i])
    ensures total == TotalOf(f, zero, old(a[..]), s, e, back, bsize)
    ensures Associative(f) && (back ==> Commutative(f)) ==>
              && (forall i :: s <= i < e ==> out[i] == Scanned(f, zero, old(a[..]), s, e, inclusive, back, i))
              && total == Folded(f, zero, old(a[..]), s, e, back)
    decreases e - s
  {
    hide BlockStart, BlockEnd, NBlocks, Associative, Commutative, Scanned, Folded, InOwnBlock;
    ghost var v := a[..];
    var l := NBlocks(e - s, bsize);
    if l <= 2 {
      total := ScanSerial(out, a, s, e, f, zero, inclusive, back);
    } else {
      NotEmptyBlocks(e - s, bsize);
      var sums := new T[l](_ => zero);
      ReduceBlocks(a, s, e, f, bsize, orders(l), sums);
      assert a[..] == v;
      SumsAre(f, v, s, e, bsize, sums[..]);
      FewerBlocks(e - s, bsize);
      total := Scan(sums, sums, 0, l, f, zero, false, back, bsize, orders);
      ScanBlocks(out, a, s, e, f, inclusive, back, bsize, orders(l), sums);
      BlocksScanned(f, zero, v, s, e, inclusive, back, bsize, sums[..], out[..]);
    }
    if Associative(f) && (back ==> Commutative(f)) {
      AllAgree(f, zero, v, s, e, inclusive, back, bsize);
    }
  }

  lemma NotEmptyBlocks(n: int, bsize: int)
    requires 0 <= n && 0 < bsize && 1 < NBlocks(n, bsize)
    ensures 0 < n
  {
  }

  lemma SumsAre<T(!new)>(f: (T, T) -> T, v: seq<T>, s: int, e: int, bsize: int, w: seq<T>)
    requires 0 <= s < e <= |v| && 0 < bsize && |w| == NBlocks(e - s, bsize)
    requires forall i :: 0 <= i < |w| ==> IsReduction(f, v, s, e, bsize, w, i)
    ensures w == BlockSums(f, v, s, e, bsize)
  {
    hide Reduction, BlockStart, BlockEnd, NBlocks;
    var u := BlockSums(f, v, s, e, bsize);
    forall i | 0 <= i < |w|
      ensures w[i] == u[i]
    {
      assert IsReduction(f, v, s, e, bsize, w, i) && IsReduction(f, v, s, e, bsize, u, i);
    }
  }

  lemma BlocksScanned<T(!new)>(f: (T, T) -> T, zero: T, v: seq<T>, s: int, e: int, inclusive: bool, back: bool, bsize: int,
                               sums: seq<T>, w: seq<T>)
    requires 0 <= s < e <= |v| && e <= |w| && 1 < bsize && |sums| == NBlocks(e - s, bsize) && 2 < |sums|
    requires forall i :: 0 <= i < |sums| ==>
               sums[i] == ScanOf(f, zero, BlockSums(f, v, s, e, bsize), 0, |sums|, false, back, bsize, i)
    requires forall i :: s <= i < e ==> IsOwnBlock(f, v, s, e, inclusive, back, bsize, sums, w[i], i)
    ensures forall i :: s <= i < e ==> w[i] == ScanOf(f, zero, v, s, e, inclusive, back, bsize, i)
  {
    hide Scanned, InOwnBlock;
    forall i | s <= i < e
      ensures w[i] == ScanOf(f, zero, v, s, e, inclusive, back, bsize, i)
    {
      InBlock(s, e, bsize, i);
      assert IsOwnBlock(f, v, s, e, inclusive, back, bsize, sums, w[i], i);
    }
  }

  /** x is what the scan of its own block leaves in cell i. */
  ghost predicate IsOwnBlock<T(!new)>(f: (T, T) -> T, v: seq<T>, s: int, e: int, inclusive: bool, back: bool, bsize: int,
                                      sums: seq<T>, x: T, i: int) {
    && 0 <= s <= i < e <= |v| && 0 < bsize && 0 <= BlockOf(s, bsize, i) < |sums|
    && x == InOwnBlock(f, sums[BlockOf(s, bsize, i)], v, s, e, inclusive, back, bsize, i)
  }

  // ----- when the blocked scan is the serial one -----

  ghost predicate Commutative<T(!new)>(f: (T, T) -> T) {
    forall x, y :: f(x, y) == f(y, x)
  }

  lemma AllAgree<T(!new)>(f: (T, T) -> T, zero: T, v: seq<T>, s: int, e: int, inclusive: bool, back: bool, bsize: int)
    requires Associative(f) && (back ==> Commutative(f)) && 0 <= s <= e <= |v| && 1 < bsize
    ensures forall i :: s <= i < e ==>
              ScanOf(f, zero, v, s, e, inclusive, back, bsize, i) == Scanned(f, zero, v, s, e, inclusive, back, i)
    ensures TotalOf(f, zero, v, s, e, back, bsize) == Folded(f, zero, v, s, e, back)
  {
    forall i | s <= i < e
      ensures ScanOf(f, zero, v, s, e, inclusive, back, bsize, i) == Scanned(f, zero, v, s, e, inclusive, back, i)
    {
      if back {
        BackwardAgrees(f, zero, v, s, e, inclusive, bsize, i);
      } else {
        ForwardAgrees(f, zero, v, s, e, inclusive, bsize, i);
      }
    }
    TotalAgrees(f, zero, v, s, e, back, bsize);
  }

  /** Forward the blocked scan leaves what the serial scan leaves. */
  lemma {:induction false} ForwardAgrees<T(!new)>(f: (T, T) -> T, zero: T, v: seq<T>, s: int, e: int, inclusive: bool, bsize: int, i: int)
    requires Associative(f) && 0 <= s <= i < e <= |v| && 1 < bsize
    ensures ScanOf(f, zero, v, s, e, inclusive, false, bsize, i) == Scanned(f, zero, v, s, e, inclusive, false, i)
    decreases e - s
  {
    var l := NBlocks(e - s, bsize);
    if l > 2 {
      var b, w := BlockOf(s, bsize, i), BlockSums(f, v, s, e, bsize);
      hide Associative, NBlocks, BlockOf, BlockStart, BlockEnd, Fold;
      InBlock(s, e, bsize, i);
      BlockBounds(s, e, bsize, b);
      FewerBlocks(e - s, bsize);
      ForwardAgrees(f, zero, w, 0, l, false, bsize, b);
      FoldBlocks(f, zero, v, s, e, bsize, w, b);
      FoldSplit(f, zero, v, s, BlockStart(s, bsize, b), if inclusive then i + 1 else i);
    }
  }

  /** Folding backward is combining with the reduction only if elements may change places. */
  lemma {:induction false} BackReduction<T(!new)>(f: (T, T) -> T, z: T, v: seq<T>, lo: int, hi: int)
    requires Associative(f) && Commutative(f) && 0 <= lo < hi <= |v|
    ensures FoldBack(f, z, v, lo, hi) == f(z, Reduction(f, v, lo, hi))
    decreases hi - lo
  {
    if lo + 1 < hi {
      BackReduction(f, z, v, lo + 1, hi);
      FoldReduction(f, v[lo], v, lo + 1, hi);
      Associate(f, z, Reduction(f, v, lo + 1, hi), v[lo]);
    } else {
      assert FoldBack(f, z, v, hi, hi) == z;
    }
  }

  /** Then folding the block reductions backward is folding the cells backward. */
  lemma {:induction false} BackBlocks<T(!new)>(f: (T, T) -> T, z: T, v: seq<T>, s: int, e: int, bsize: int, sums: seq<T>, i: int)
    requires Associative(f) && Commutative(f) && 0 <= s < e <= |v| && 0 < bsize && |sums| == NBlocks(e - s, bsize)
    requires forall k :: 0 <= k < |sums| ==> IsReduction(f, v, s, e, bsize, sums, k)
    requires 0 <= i <= |sums|
    ensures s <= (if i < |sums| then BlockStart(s, bsize, i) else e) <= e
    ensures FoldBack(f, z, sums, i, |sums|) == FoldBack(f, z, v, if i < |sums| then BlockStart(s, bsize, i) else e, e)
    decreases |sums| - i
  {
    hide Associative, Commutative, NBlocks, BlockStart, BlockEnd, Reduction;
    if i < |sums| {
      BackBlocks(f, z, v, s, e, bsize, sums, i + 1);
      BlockBounds(s, e, bsize, i);
      var lo, hi := BlockStart(s, bsize, i), BlockEnd(s, e, bsize, i);
      assert IsReduction(f, v, s, e, bsize, sums, i);
      FoldBackSplit(f, z, v, lo, hi, e);
      BackReduction(f, FoldBack(f, z, v, hi, e), v, lo, hi);
    }
  }

  /** Backward it does for a commutative operation. */
  lemma {:induction false} BackwardAgrees<T(!new)>(f: (T, T) -> T, zero: T, v: seq<T>, s: int, e: int, inclusive: bool, bsize: int, i: int)
    requires Associative(f) && Commutative(f) && 0 <= s <= i < e <= |v| && 1 < bsize
    ensures ScanOf(f, zero, v, s, e, inclusive, true, bsize, i) == Scanned(f, zero, v, s, e, inclusive, true, i)
    decreases e - s
  {
    var l := NBlocks(e - s, bsize);
    if l > 2 {
      var b, w := BlockOf(s, bsize, i), BlockSums(f, v, s, e, bsize);
      hide Associative, Commutative, NBlocks, BlockOf, BlockStart, BlockEnd, FoldBack;
      InBlock(s, e, bsize, i);
      BlockBounds(s, e, bsize, b);
      FewerBlocks(e - s, bsize);
      BackwardAgrees(f, zero, w, 0, l, false, bsize, b);
      BackBlocks(f, zero, v, s, e, bsize, w, b + 1);
      FoldBackSplit(f, zero, v, if inclusive then i else i + 1, BlockEnd(s, e, bsize, b), e);
    }
  }

  lemma {:induction false} TotalAgrees<T(!new)>(f: (T, T) -> T, zero: T, v: seq<T>, s: int, e: int, back: bool, bsize: int)
    requires Associative(f) && (back ==> Commutative(f)) && 0 <= s <= e <= |v| && 1 < bsize
    ensures TotalOf(f, zero, v, s, e, back, bsize) == Folded(f, zero, v, s, e, back)
    decreases e - s
  {
    var l := NBlocks(e - s, bsize);
    if l > 2 {
      FewerBlocks(e - s, bsize);
      BlockBounds(s, e, bsize, 0);
      var w := BlockSums(f, v, s, e, bsize);
      TotalAgrees(f, zero, w, 0, l, back, bsize);
      if back {
        BackBlocks(f, zero, v, s, e, bsize, w, 0);
      } else {
        FoldBlocks(f, zero, v, s, e, bsize, w, l);
      }
    }
  }

  // ----- scanning the blocks -----

  predicate Ran(order: Order, i: int, t: int) {
    0 <= i < |order.place| && order.place[i] < t
  }

  /** After t blocks: their cells are scanned, all others are as they were in w0. */
  ghost predicate ScanState<T(!new)>(f: (T, T) -> T, v: seq<T>, w0: seq<T>, w: seq<T>, s: int, e: int, inclusive: bool, back: bool,
                                     bsize: int, sums: seq<T>, order: Order, t: int)
  {
    && 0 <= s < e <= |v| && e <= |w| == |w0| && 0 < bsize && IsOrder(order, NBlocks(e - s, bsize)) && |sums| == NBlocks(e - s, bsize)
    && (forall x :: 0 <= x < |w| ==>
          if s <= x < e && Ran(order, BlockOf(s, bsize, x), t) then IsOwnBlock(f, v, s, e, inclusive, back, bsize, sums, w[x], x)
          else w[x] == w0[x])
  }

  /** Every block scans its own cells and nothing else. */
  method ScanBlocks<T(!new)>(out: array<T>, a: array<T>, s: int, e: int, f: (T, T) -> T, inclusive: bool, back: bool,
                             bsize: int, order: Order, sums: array<T>)
    requires 0 <= s < e <= a.Length && e <= out.Length && 0 < bsize && sums != out
    requires sums.Length == NBlocks(e - s, bsize) && IsOrder(order, sums.Length)
    modifies out
    ensures forall i :: s <= i < e ==> IsOwnBlock(f, old(a[..]), s, e, inclusive, back, bsize, sums[..], out[i], i)
    ensures forall i :: 0 <= i < out.Length && !(s <= i < e) ==> out[i] == old(out[i])
  {
    hide BlockOf, IsOwnBlock;
    ghost var v, w0, offsets := a[..], out[..], sums[..];
    for t := 0 to sums.Length
      invariant sums[..] == offsets
      invariant a != out ==> a[..] == v
      invariant ScanState(f, v, w0, out[..], s, e, inclusive, back, bsize, offsets, order, t)
    {
      var i := order.at[t];
      BlockBounds(s, e, bsize, i);
      RunBlock(out, a, s, e, f, inclusive, back, bsize, order, t, sums[i], offsets, v, w0);
    }
    forall x | s <= x < e
      ensures IsOwnBlock(f, v, s, e, inclusive, back, bsize, offsets, out[x], x)
    {
      InBlock(s, e, bsize, x);
      assert out[..][x] == out[x];
    }
  }

  /** One block's scan advances the state by exactly its own cells. */
  method RunBlock<T(!new)>(out: array<T>, a: array<T>, s: int, e: int, f: (T, T) -> T, inclusive: bool, back: bool, bsize: int,
                           order: Order, t: int, offset: T, ghost sums: seq<T>, ghost v: seq<T>, ghost w0: seq<T>)
    requires ScanState(f, v, w0, out[..], s, e, inclusive, back, bsize, sums, order, t)
    requires if a == out then v == w0 else a[..] == v
    requires 0 <= t < |order.at| && 0 <= BlockStart(s, bsize, order.at[t]) && s <= BlockStart(s, bsize, order.at[t]) <= e
    requires offset == sums[order.at[t]]
    modifies out
    ensures ScanState(f, v, w0, out[..], s, e, inclusive, back, bsize, sums, order, t + 1)
  {
    hide BlockOf, Scanned, Folded, IsOwnBlock;
    var i := order.at[t];
    BlockBounds(s, e, bsize, i);
    var lo, hi := BlockStart(s, bsize, i), BlockEnd(s, e, bsize, i);
    ghost var w, b := out[..], a[..];
    BlockUntouched(f, v, w0, w, s, e, inclusive, back, bsize, sums, order, t);
    var _ := ScanSerial(out, a, lo, hi, f, offset, inclusive, back);
    RunStep(f, v, w0, w, out[..], s, e, inclusive, back, bsize, sums, order, t, b);
  }

  /** A block that has not run still holds its input. */
  lemma BlockUntouched<T(!new)>(f: (T, T) -> T, v: seq<T>, w0: seq<T>, w: seq<T>, s: int, e: int, inclusive: bool, back: bool,
                                bsize: int, sums: seq<T>, order: Order, t: int)
    requires ScanState(f, v, w0, w, s, e, inclusive, back, bsize, sums, order, t) && 0 <= t < |order.at|
    ensures forall x :: BlockStart(s, bsize, order.at[t]) <= x < BlockEnd(s, e, bsize, order.at[t]) ==>
              0 <= x < |w| && w[x] == w0[x]
  {
    hide BlockOf, IsOwnBlock;
    BlockBounds(s, e, bsize, order.at[t]);
    CellsOfBlock(s, e, bsize, order.at[t]);
  }

  lemma RunStep<T(!new)>(f: (T, T) -> T, v: seq<T>, w0: seq<T>, w: seq<T>, w': seq<T>, s: int, e: int, inclusive: bool, back: bool,
                         bsize: int, sums: seq<T>, order: Order, t: int, b: seq<T>)
    requires ScanState(f, v, w0, w, s, e, inclusive, back, bsize, sums, order, t) && 0 <= t < |order.at|
    requires var lo, hi := BlockStart(s, bsize, order.at[t]), BlockEnd(s, e, bsize, order.at[t]);
             && s <= lo < hi <= e <= |b| && |w'| == |w|
             && (forall x :: lo <= x < hi ==> b[x] == v[x] && w'[x] == Scanned(f, sums[order.at[t]], b, lo, hi, inclusive, back, x))
             && (forall x :: 0 <= x < |w| && !(lo <= x < hi) ==> w'[x] == w[x])
    ensures ScanState(f, v, w0, w', s, e, inclusive, back, bsize, sums, order, t + 1)
  {
    hide BlockOf, IsOwnBlock, Scanned;
    var lo, hi := BlockStart(s, bsize, order.at[t]), BlockEnd(s, e, bsize, order.at[t]);
    CellsOfBlock(s, e, bsize, order.at[t]);
    forall x | lo <= x < hi
      ensures IsOwnBlock(f, v, s, e, inclusive, back, bsize, sums, w'[x], x)
    {
      OwnBlock(f, v, s, e, inclusive, back, bsize, sums, order.at[t], b, x);
    }
  }

  lemma OwnBlock<T(!new)>(f: (T, T) -> T, v: seq<T>, s: int, e: int, inclusive: bool, back: bool, bsize: int, sums: seq<T>,
                          i: int, b: seq<T>, x: int)
    requires 0 <= s < e <= |v| && e <= |b| && 0 < bsize && 0 <= i < |sums| == NBlocks(e - s, bsize)
    requires BlockStart(s, bsize, i) <= x < BlockEnd(s, e, bsize, i)
    requires forall k :: BlockStart(s, bsize, i) <= k < BlockEnd(s, e, bsize, i) ==> 0 <= k < |b| && b[k] == v[k]
    ensures 0 <= BlockStart(s, bsize, i) && BlockEnd(s, e, bsize, i) <= |b|
    ensures IsOwnBlock(f, v, s, e, inclusive, back, bsize, sums,
                       Scanned(f, sums[i], b, BlockStart(s, bsize, i), BlockEnd(s, e, bsize, i), inclusive, back, x), x)
  {
    BlockBounds(s, e, bsize, i);
    BlockOfCell(s, e, bsize, i, x);
    hide NBlocks, BlockOf, BlockStart, BlockEnd, Fold, FoldBack;
    var lo, hi := BlockStart(s, bsize, i), BlockEnd(s, e, bsize, i);
    if back {
      FoldBackSame(f, sums[i], b, v, if inclusive then x else x + 1, hi);
    } else {
      FoldSame(f, sums[i], b, v, lo, if inclusive then x + 1 else x);
    }
  }

  lemma CellsOfBlock(s: int, e: int, bsize: int, i: int)
    requires 0 <= s < e && 0 < bsize && 0 <= i < NBlocks(e - s, bsize)
    ensures forall x :: s <= x < e ==>
              (BlockOf(s, bsize, x) == i <==> BlockStart(s, bsize, i) <= x < BlockEnd(s, e, bsize, i))
    ensures forall x :: s <= x < e ==> 0 <= BlockOf(s, bsize, x) < NBlocks(e - s, bsize)
  {
    forall x | s <= x < e
      ensures 0 <= BlockOf(s, bsize, x) < NBlocks(e - s, bsize)
      ensures BlockOf(s, bsize, x) == i <==> BlockStart(s, bsize, i) <= x < BlockEnd(s, e, bsize, i)
    {
      InBlock(s, e, bsize, x);
      if BlockStart(s, bsize, i) <= x < BlockEnd(s, e, bsize, i) {
        BlockOfCell(s, e, bsize, i, x);
      }
    }
  }

  // ----- flags -----

  function CountTrue(fl: seq<bool>, lo: int, hi: int): (c: int)
    requires 0 <= lo && hi <= |fl|
    ensures 0 <= c && (lo <= hi ==> c <= hi - lo)
    decreases hi - lo
  {
    if lo >= hi then 0 else CountTrue(fl, lo, hi - 1) + (if fl[hi - 1] then 1 else 0)
  }

  lemma {:induction false} CountTrueSplit(fl: seq<bool>, lo: int, mid: int, hi: int)
    requires 0 <= lo <= mid <= hi <= |fl|
    ensures CountTrue(fl, lo, hi) == CountTrue(fl, lo, mid) + CountTrue(fl, mid, hi)
    decreases hi
  {
    if mid < hi {
      CountTrueSplit(fl, lo, mid, hi - 1);
    }
  }

  /** It counts the flagged cells. */
  lemma {:induction false} CountTrueIs(fl: seq<bool>, lo: int, hi: int)
    requires 0 <= lo && hi <= |fl|
    ensures CountTrue(fl, lo, hi) == |set i | lo <= i < hi && fl[i]|
    decreases hi - lo
  {
    var all := set i | lo <= i < hi && fl[i];
    if lo < hi {
      CountTrueIs(fl, lo, hi - 1);
      var front := set i | lo <= i < hi - 1 && fl[i];
      if fl[hi - 1] {
        assert all == front + {hi - 1};
        assert hi - 1 !in front;
      } else {
        assert all == front;
      }
    } else {
      assert all == {};
    }
  }

  /** Flag k as a byte. */
  function Byte(fl: seq<bool>, k: int): int
    requires 0 <= k < |fl|
  {
    if fl[k] then 1 else 0
  }

  /** Four flags read as one word, lowest byte first. */
  function Word(fl: seq<bool>, k: int): int
    requires 0 <= k && k + 4 <= |fl|
  {
    Byte(fl, k) + 0x100 * Byte(fl, k + 1) + 0x1_0000 * Byte(fl, k + 2) + 0x100_0000 * Byte(fl, k + 3)
  }

  function LaneUnit(i: nat): (u: int)
    requires i < 4
    ensures 0 < u
  {
    if i == 0 then 1 else if i == 1 then 0x100 else if i == 2 then 0x1_0000 else 0x100_0000
  }

  /** Byte lane of a word. */
  function Lane(w: int, i: nat): int
    requires i < 4
  {
    (w / LaneUnit(i)) % 0x100
  }

  lemma LaneIs(w: int, i: nat, below: int, c: int, above: int)
    requires i < 4 && 0 <= below < LaneUnit(i) && 0 <= c < 0x100 && 0 <= above
    requires w == below + (c + above * 0x100) * LaneUnit(i)
    ensures Lane(w, i) == c
  {
    hide LaneUnit;
    PosDivMod(LaneUnit(i), below, c + above * 0x100);
    PosDivMod(0x100, c, above);
  }

  /** Four counts below 256 read back from the word that holds them. */
  lemma LanesOf(c0: int, c1: int, c2: int, c3: int)
    requires 0 <= c0 < 0x100 && 0 <= c1 < 0x100 && 0 <= c2 < 0x100 && 0 <= c3 < 0x100
    ensures var w := FourCounts(c0, c1, c2, c3);
            Lane(w, 0) == c0 && Lane(w, 1) == c1 && Lane(w, 2) == c2 && Lane(w, 3) == c3
  {
    hide Lane;
    var w := FourCounts(c0, c1, c2, c3);
    LaneIs(w, 0, 0, c0, c1 + 0x100 * c2 + 0x1_0000 * c3);
    LaneIs(w, 1, c0, c1, c2 + 0x100 * c3);
    LaneIs(w, 2, c0 + 0x100 * c1, c2, c3);
    LaneIs(w, 3, c0 + 0x100 * c1 + 0x1_0000 * c2, c3, 0);
  }

  /** Four counts in one word. */
  function FourCounts(c0: int, c1: int, c2: int, c3: int): int {
    c0 + 0x100 * c1 + 0x1_0000 * c2 + 0x100_0000 * c3
  }

  /** While no count passes 255, adding a word of flags in 32 bits adds to each count. */
  lemma AddWord(fl: seq<bool>, k: int, c0: int, c1: int, c2: int, c3: int)
    requires 0 <= k && k + 4 <= |fl| && 0 <= c0 < 0xff && 0 <= c1 < 0xff && 0 <= c2 < 0xff && 0 <= c3 < 0xff
    ensures (FourCounts(c0, c1, c2, c3) + Word(fl, k)) % 0x1_0000_0000 ==
            FourCounts(c0 + Byte(fl, k), c1 + Byte(fl, k + 1), c2 + Byte(fl, k + 2), c3 + Byte(fl, k + 3))
  {
    var w := FourCounts(c0 + Byte(fl, k), c1 + Byte(fl, k + 1), c2 + Byte(fl, k + 2), c3 + Byte(fl, k + 3));
    assert FourCounts(c0, c1, c2, c3) + Word(fl, k) == w;
    SmallMod(w, 0x1_0000_0000);
  }

  lemma SmallMod(w: int, m: int)
    requires 0 <= w < m
    ensures w % m == w
  {
  }

  /** Sums 128 words in 32-bit arithmetic and adds up the lanes: no lane can pass 128, so none
      carries into the next and the wrap-around never shows. */
  method SumGroup(fl: array<bool>, start: int) returns (r: int)
    requires 0 <= start && start + 512 <= fl.Length
    ensures r == CountTrue(fl[..], start, start + 512)
  {
    hide Lane, Word, FourCounts, CountTrue;
    var rr := 0;
    ghost var c0, c1, c2, c3 := 0, 0, 0, 0;
    NoFlags(fl[..], start);
    ghost var s := fl[..];
    for j := 0 to 128
      invariant 0 <= c0 <= j && 0 <= c1 <= j && 0 <= c2 <= j && 0 <= c3 <= j
      invariant rr == FourCounts(c0, c1, c2, c3)
      invariant c0 + c1 + c2 + c3 == CountTrue(s, start, start + 4 * j)
    {
      var k := start + 4 * j;
      rr := (rr + Word(fl[..], k)) % 0x1_0000_0000;
      AddWord(s, k, c0, c1, c2, c3);
      FourFlags(s, start, k);
      c0, c1, c2, c3 := c0 + Byte(s, k), c1 + Byte(s, k + 1), c2 + Byte(s, k + 2), c3 + Byte(s, k + 3);
    }
    LanesOf(c0, c1, c2, c3);
    r := Lane(rr, 0) + Lane(rr, 1) + Lane(rr, 2) + Lane(rr, 3);
  }

  lemma NoFlags(fl: seq<bool>, lo: int)
    requires 0 <= lo <= |fl|
    ensures CountTrue(fl, lo, lo) == 0 && FourCounts(0, 0, 0, 0) == 0
  {
  }

  lemma FourFlags(fl: seq<bool>, lo: int, k: int)
    requires 0 <= lo <= k && k + 4 <= |fl|
    ensures CountTrue(fl, lo, k + 4) ==
            CountTrue(fl, lo, k) + Byte(fl, k) + Byte(fl, k + 1) + Byte(fl, k + 2) + Byte(fl, k + 3)
  {
    assert CountTrue(fl, lo, k + 2) == CountTrue(fl, lo, k) + Byte(fl, k) + Byte(fl, k + 1);
  }

  /** Counts flags, four at a time where the length and the alignment allow it. */
  method SumFlagsSerial(fl: array<bool>, start: int, n: int, aligned: bool) returns (r: int)
    requires 0 <= start && 0 <= n && start + n <= fl.Length
    ensures r == CountTrue(fl[..], start, start + n)
  {
    r := 0;
    if n >= 128 && n % 512 == 0 && aligned {
      for k := 0 to n / 512
        invariant r == CountTrue(fl[..], start, start + 512 * k)
      {
        var g := SumGroup(fl, start + 512 * k);
        CountTrueSplit(fl[..], start, start + 512 * k, start + 512 * (k + 1));
        r := r + g;
      }
    } else {
      for j := 0 to n
        invariant r == CountTrue(fl[..], start, start + j)
      {
        r := r + (if fl[start + j] then 1 else 0);
      }
    }
  }

  // ----- packing -----

  /** The flagged values in order. */
  function Filtered<T>(v: seq<T>, fl: seq<bool>, lo: int, hi: int): (r: seq<T>)
    requires 0 <= lo && hi <= |v| && hi <= |fl|
    ensures |r| == CountTrue(fl, lo, hi)
    decreases hi - lo
  {
    if lo >= hi then [] else Filtered(v, fl, lo, hi - 1) + (if fl[hi - 1] then [v[hi - 1]] else [])
  }

  lemma {:induction false} FilteredSplit<T>(v: seq<T>, fl: seq<bool>, lo: int, mid: int, hi: int)
    requires 0 <= lo <= mid <= hi <= |v| && hi <= |fl|
    ensures Filtered(v, fl, lo, hi) == Filtered(v, fl, lo, mid) + Filtered(v, fl, mid, hi)
    decreases hi
  {
    if mid < hi {
      FilteredSplit(v, fl, lo, mid, hi - 1);
    }
  }

  /** A flagged value stands behind as many others as there are flags before it. */
  lemma {:induction false} FilteredAt<T>(v: seq<T>, fl: seq<bool>, lo: int, hi: int, i: int)
    requires 0 <= lo <= i < hi <= |v| && hi <= |fl| && fl[i]
    ensures CountTrue(fl, lo, i) < CountTrue(fl, lo, hi) && Filtered(v, fl, lo, hi)[CountTrue(fl, lo, i)] == v[i]
    decreases hi
  {
    if i < hi - 1 {
      FilteredAt(v, fl, lo, hi - 1, i);
    }
  }

  /** Writes the flagged values of a block from cell off on. */
  method PackSerial<T(!new)>(out: array<T>, off: int, fl: array<bool>, a: array<T>, s: int, e: int) returns (k: int)
    requires 0 <= s <= e <= a.Length && e <= fl.Length && out != a
    requires 0 <= off && off + CountTrue(fl[..], s, e) <= out.Length && (out as object) != fl
    modifies out
    ensures k == CountTrue(fl[..], s, e)
    ensures out[off..off + k] == Filtered(a[..], fl[..], s, e)
    ensures forall x :: 0 <= x < out.Length && !(off <= x < off + k) ==> out[x] == old(out[x])
  {
    k := 0;
    ghost var v, b := a[..], fl[..];
    for i := s to e
      invariant k == CountTrue(b, s, i) && a[..] == v && fl[..] == b && off + k <= out.Length
      invariant out[off..off + k] == Filtered(v, b, s, i)
      invariant forall x :: 0 <= x < out.Length && !(off <= x < off + k) ==> out[x] == old(out[x])
    {
      CountTrueSplit(b, s, i + 1, e);
      if fl[i] {
        out[off + k] := a[i];
        k := k + 1;
      }
    }
  }

  method CountBlocks(fl: array<bool>, s: int, e: int, bsize: int, order: Order, sums: array<int>)
    requires 0 <= s < e <= fl.Length && 0 < bsize && IsOrder(order, NBlocks(e - s, bsize))
    requires sums.Length == NBlocks(e - s, bsize) && (sums as object) != fl
    modifies sums
    ensures forall i :: 0 <= i < sums.Length ==> IsCount(fl[..], s, e, bsize, sums[..], i)
  {
    var l := NBlocks(e - s, bsize);
    for t := 0 to l
      invariant forall i :: 0 <= i < l && order.place[i] < t ==> IsCount(fl[..], s, e, bsize, sums[..], i)
    {
      var i := order.at[t];
      BlockBounds(s, e, bsize, i);
      ghost var before := sums[..];
      var lo := BlockStart(s, bsize, i);
      sums[i] := SumFlagsSerial(fl, lo, BlockEnd(s, e, bsize, i) - lo, lo % 4 == 0);
      forall k | 0 <= k < l && order.place[k] < t + 1
        ensures IsCount(fl[..], s, e, bsize, sums[..], k)
      {
        assert k != i ==> IsCount(fl[..], s, e, bsize, before, k);
      }
    }
  }

  ghost predicate IsCount(fl: seq<bool>, s: int, e: int, bsize: int, sums: seq<int>, i: int) {
    && 0 <= i < |sums| && 0 <= BlockStart(s, bsize, i) <= BlockEnd(s, e, bsize, i) <= |fl|
    && sums[i] == CountTrue(fl, BlockStart(s, bsize, i), BlockEnd(s, e, bsize, i))
  }

  function Plus(): (int, int) -> int {
    (x, y) => x + y
  }

  /** Block i begins after the flags before it. */
  ghost predicate IsRank(fl: seq<bool>, s: int, e: int, bsize: int, sums: seq<int>, i: int) {
    && 0 <= i < |sums| && 0 <= s <= BlockStart(s, bsize, i) <= |fl|
    && sums[i] == CountTrue(fl, s, BlockStart(s, bsize, i))
  }

  lemma {:induction false} RankBlocks(fl: seq<bool>, s: int, e: int, bsize: int, sums: seq<int>, i: int)
    requires 0 <= s < e <= |fl| && 0 < bsize && |sums| == NBlocks(e - s, bsize)
    requires forall k :: 0 <= k < |sums| ==> IsCount(fl, s, e, bsize, sums, k)
    requires 0 <= i <= |sums|
    ensures s <= (if i < |sums| then BlockStart(s, bsize, i) else e) <= e
    ensures Fold(Plus(), 0, sums, 0, i) == CountTrue(fl, s, if i < |sums| then BlockStart(s, bsize, i) else e)
    decreases i
  {
    if 0 < i {
      RankBlocks(fl, s, e, bsize, sums, i - 1);
      BlockBounds(s, e, bsize, i - 1);
      assert IsCount(fl, s, e, bsize, sums, i - 1);
      CountTrueSplit(fl, s, BlockStart(s, bsize, i - 1), BlockEnd(s, e, bsize, i - 1));
    }
    if i < |sums| {
      BlockBounds(s, e, bsize, i);
    }
  }

  lemma BlocksApart(s: int, e: int, bsize: int, i: int, k: int)
    requires 0 <= s < e && 0 < bsize && 0 <= i < k < NBlocks(e - s, bsize)
    ensures BlockEnd(s, e, bsize, i) <= BlockStart(s, bsize, k)
  {
    assert (k - i) * bsize == k * bsize - i * bsize;
    MulAtLeast(k - i, bsize);
  }

  /** Where block i's flagged values belong. */
  ghost predicate IsPacked<T(!new)>(v: seq<T>, fl: seq<bool>, w: seq<T>, s: int, e: int, bsize: int, i: int) {
    && 0 <= s <= BlockStart(s, bsize, i) <= BlockEnd(s, e, bsize, i) <= |v| && |v| <= |fl|
    && CountTrue(fl, s, BlockEnd(s, e, bsize, i)) <= |w|
    && CountTrue(fl, s, BlockStart(s, bsize, i)) <= CountTrue(fl, s, BlockEnd(s, e, bsize, i))
    && w[CountTrue(fl, s, BlockStart(s, bsize, i))..CountTrue(fl, s, BlockEnd(s, e, bsize, i))]
       == Filtered(v, fl, BlockStart(s, bsize, i), BlockEnd(s, e, bsize, i))
  }

  /** Writing block i's own cells leaves the cells of the others alone. */
  lemma PackedKept<T(!new)>(v: seq<T>, fl: seq<bool>, w: seq<T>, w': seq<T>, s: int, e: int, bsize: int, i: int, k: int)
    requires 0 <= s < e <= |v| && |v| <= |fl| && 0 < bsize && |w| == |w'| && i != k
    requires 0 <= i < NBlocks(e - s, bsize) && 0 <= k < NBlocks(e - s, bsize)
    requires IsPacked(v, fl, w, s, e, bsize, k)
    requires s <= BlockStart(s, bsize, i) <= BlockEnd(s, e, bsize, i) <= e
    requires forall x :: 0 <= x < |w| && !(CountTrue(fl, s, BlockStart(s, bsize, i)) <= x < CountTrue(fl, s, BlockEnd(s, e, bsize, i))) ==>
               w'[x] == w[x]
    ensures IsPacked(v, fl, w', s, e, bsize, k)
  {
    var lo, hi := BlockStart(s, bsize, k), BlockEnd(s, e, bsize, k);
    if i < k {
      BlocksApart(s, e, bsize, i, k);
      CountTrueSplit(fl, s, BlockEnd(s, e, bsize, i), lo);
    } else {
      BlocksApart(s, e, bsize, k, i);
      CountTrueSplit(fl, s, hi, BlockStart(s, bsize, i));
    }
    assert w'[CountTrue(fl, s, lo)..CountTrue(fl, s, hi)] == w[CountTrue(fl, s, lo)..CountTrue(fl, s, hi)];
  }

  lemma FirstStart(s: int, bsize: int)
    ensures BlockStart(s, bsize, 0) == s
  {
  }

  lemma JoinPacked<T(!new)>(v: seq<T>, fl: seq<bool>, w: seq<T>, s: int, lo: int, hi: int)
    requires 0 <= s <= lo <= hi <= |v| <= |fl| && CountTrue(fl, s, lo) <= CountTrue(fl, s, hi) <= |w|
    requires w[..CountTrue(fl, s, lo)] == Filtered(v, fl, s, lo)
    requires w[CountTrue(fl, s, lo)..CountTrue(fl, s, hi)] == Filtered(v, fl, lo, hi)
    ensures w[..CountTrue(fl, s, hi)] == Filtered(v, fl, s, hi)
  {
    hide Filtered, CountTrue;
    FilteredSplit(v, fl, s, lo, hi);
    PrefixJoin(w, CountTrue(fl, s, lo), CountTrue(fl, s, hi));
  }

  lemma PrefixJoin<T>(w: seq<T>, x: int, y: int)
    requires 0 <= x <= y <= |w|
    ensures w[..y] == w[..x] + w[x..y]
  {
  }

  /** Packed blocks put together are the filtered range. */
  lemma {:induction false} Gathered<T(!new)>(v: seq<T>, fl: seq<bool>, w: seq<T>, s: int, e: int, bsize: int, i: int)
    requires 0 <= s < e <= |v| && |v| <= |fl| && 0 < bsize && 0 <= i <= NBlocks(e - s, bsize)
    requires forall k :: 0 <= k < NBlocks(e - s, bsize) ==> IsPacked(v, fl, w, s, e, bsize, k)
    ensures var x := if i < NBlocks(e - s, bsize) then BlockStart(s, bsize, i) else e;
            s <= x <= e && CountTrue(fl, s, x) <= |w| && w[..CountTrue(fl, s, x)] == Filtered(v, fl, s, x)
    decreases i
  {
    hide BlockStart, BlockEnd, NBlocks;
    FirstStart(s, bsize);
    if i < NBlocks(e - s, bsize) {
      BlockBounds(s, e, bsize, i);
    }
    if 0 < i {
      Gathered(v, fl, w, s, e, bsize, i - 1);
      BlockBounds(s, e, bsize, i - 1);
      assert IsPacked(v, fl, w, s, e, bsize, i - 1);
      JoinPacked(v, fl, w, s, BlockStart(s, bsize, i - 1), BlockEnd(s, e, bsize, i - 1));
    }
  }

  /** Blocked packing: count, scan the counts in place, pack every block at its offset, the blocks
      in any order. It filters the range in order and writes nothing else. */
  method Pack<T(!new)>(out: array<T>, fl: array<bool>, a: array<T>, s: int, e: int, bsize: int, orders: int -> Order)
    returns (m: int)
    requires 0 <= s <= e <= a.Length <= fl.Length && out != a && (out as object) != fl
    requires CountTrue(fl[..], s, e) <= out.Length
    requires 1 < bsize && forall n :: 0 <= n ==> IsOrder(orders(n), n)
    modifies out
    ensures m == CountTrue(fl[..], s, e) == |set i | s <= i < e && fl[i]|
    ensures forall i :: s <= i < e && fl[i] ==> CountTrue(fl[..], s, i) < m && out[CountTrue(fl[..], s, i)] == a[i]
    ensures out[..m] == Filtered(a[..], fl[..], s, e)
    ensures forall x :: m <= x < out.Length ==> out[x] == old(out[x])
  {
    hide Filtered, CountTrue;
    m := PackFiltered(out, fl, a, s, e, bsize, orders);
    CountTrueIs(fl[..], s, e);
    assert (set i | s <= i < e && fl[..][i]) == (set i | s <= i < e && fl[i]);
    forall i | s <= i < e && fl[i]
      ensures CountTrue(fl[..], s, i) < m && out[CountTrue(fl[..], s, i)] == a[i]
    {
      FilteredAt(a[..], fl[..], s, e, i);
    }
  }

  method PackFiltered<T(!new)>(out: array<T>, fl: array<bool>, a: array<T>, s: int, e: int, bsize: int, orders: int -> Order)
    returns (m: int)
    requires 0 <= s <= e <= a.Length <= fl.Length && out != a && (out as object) != fl
    requires CountTrue(fl[..], s, e) <= out.Length
    requires 1 < bsize && forall n :: 0 <= n ==> IsOrder(orders(n), n)
    modifies out
    ensures m == CountTrue(fl[..], s, e)
    ensures out[..m] == Filtered(a[..], fl[..], s, e)
    ensures forall x :: m <= x < out.Length ==> out[x] == old(out[x])
  {
    var l := NBlocks(e - s, bsize);
    if l <= 1 {
      m := PackSerial(out, 0, fl, a, s, e);
      return;
    }
    var sums := new int[l](_ => 0);
    CountBlocks(fl, s, e, bsize, orders(l), sums);
    ghost var counts := sums[..];
    PlusAssociative();
    m := Scan(sums, sums, 0, l, Plus(), 0, false, false, bsize, orders);
    RankBlocks(fl[..], s, e, bsize, counts, l);
    RanksAre(fl[..], s, e, bsize, counts, sums[..]);
    PackBlocks(out, fl, a, s, e, bsize, orders(l), sums);
    Gathered(a[..], fl[..], out[..], s, e, bsize, l);
  }

  lemma PlusAssociative()
    ensures Associative(Plus())
  {
  }

  lemma RanksAre(fl: seq<bool>, s: int, e: int, bsize: int, counts: seq<int>, sums: seq<int>)
    requires 0 <= s < e <= |fl| && 0 < bsize && |counts| == |sums| == NBlocks(e - s, bsize)
    requires forall k :: 0 <= k < |counts| ==> IsCount(fl, s, e, bsize, counts, k)
    requires forall i :: 0 <= i < |counts| ==> sums[i] == Scanned(Plus(), 0, counts, 0, |counts|, false, false, i)
    ensures forall i :: 0 <= i < |sums| ==> IsRank(fl, s, e, bsize, sums, i)
  {
    forall i | 0 <= i < |sums|
      ensures IsRank(fl, s, e, bsize, sums, i)
    {
      RankBlocks(fl, s, e, bsize, counts, i);
      BlockBounds(s, e, bsize, i);
    }
  }

  method PackBlocks<T(!new)>(out: array<T>, fl: array<bool>, a: array<T>, s: int, e: int, bsize: int, order: Order, sums: array<int>)
    requires 0 <= s < e <= a.Length <= fl.Length && out != a && (out as object) != fl && (out as object) != sums && 0 < bsize
    requires CountTrue(fl[..], s, e) <= out.Length
    requires sums.Length == NBlocks(e - s, bsize) && IsOrder(order, sums.Length)
    requires forall i :: 0 <= i < sums.Length ==> IsRank(fl[..], s, e, bsize, sums[..], i)
    modifies out
    ensures forall i :: 0 <= i < sums.Length ==> IsPacked(a[..], fl[..], out[..], s, e, bsize, i)
    ensures forall x :: CountTrue(fl[..], s, e) <= x < out.Length ==> out[x] == old(out[x])
  {
    hide IsPacked;
    ghost var v, b, r := a[..], fl[..], sums[..];
    for t := 0 to sums.Length
      invariant a[..] == v && fl[..] == b && sums[..] == r
      invariant forall i :: 0 <= i < sums.Length && order.place[i] < t ==> IsPacked(v, b, out[..], s, e, bsize, i)
      invariant forall x :: CountTrue(b, s, e) <= x < out.Length ==> out[x] == old(out[x])
    {
      var i := order.at[t];
      ghost var w := out[..];
      PackBlock(out, fl, a, s, e, bsize, i, sums[i], r);
      forall k | 0 <= k < sums.Length && order.place[k] < t + 1
        ensures IsPacked(v, b, out[..], s, e, bsize, k)
      {
        if k != i {
          BlockBounds(s, e, bsize, i);
          PackedKept(v, b, w, out[..], s, e, bsize, i, k);
        }
      }
    }
  }

  method PackBlock<T(!new)>(out: array<T>, fl: array<bool>, a: array<T>, s: int, e: int, bsize: int, i: int, off: int, ghost r: seq<int>)
    requires 0 <= s < e <= a.Length <= fl.Length && out != a && (out as object) != fl && 0 < bsize
    requires CountTrue(fl[..], s, e) <= out.Length && 0 <= i < NBlocks(e - s, bsize)
    requires IsRank(fl[..], s, e, bsize, r, i) && off == r[i]
    modifies out
    ensures IsPacked(a[..], fl[..], out[..], s, e, bsize, i)
    ensures var x0, x1 := CountTrue(fl[..], s, BlockStart(s, bsize, i)), CountTrue(fl[..], s, BlockEnd(s, e, bsize, i));
            forall x :: 0 <= x < out.Length && !(x0 <= x < x1) ==> out[x] == old(out[x])
    ensures CountTrue(fl[..], s, BlockEnd(s, e, bsize, i)) <= CountTrue(fl[..], s, e)
  {
    BlockBounds(s, e, bsize, i);
    var lo, hi := BlockStart(s, bsize, i), BlockEnd(s, e, bsize, i);
    CountTrueSplit(fl[..], s, lo, hi);
    CountTrueSplit(fl[..], s, hi, e);
    var k := PackSerial(out, off, fl, a, lo, hi);
  }
}
