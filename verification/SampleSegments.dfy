/** The merge of a sorted row with the pivots in sampleSort.h: it counts how many elements of the row
    fall into each of the segments that the pivots separate. */
module SampleSegments {
  import opened Orders
  import opened SumTree

  // ----- which segment an element belongs to -----

  /** Pivot c repeats pivot c - 1, which bounded its segment from above: segment c takes the elements
      that are equal to both. Otherwise it takes what is less than pivot c. */
  function TakesEqual<T>(lt: (T, T) -> bool, p: seq<T>, c: int): bool
    requires 0 <= c < |p|
    decreases c
  {
    c > 0 && !TakesEqual(lt, p, c - 1) && !lt(p[c - 1], p[c])
  }

  /** The merge counts v at segment c instead of passing on. */
  predicate Stays<T>(lt: (T, T) -> bool, p: seq<T>, c: int, v: T)
    requires 0 <= c < |p|
  {
    if TakesEqual(lt, p, c) then !lt(p[c], v) else lt(v, p[c])
  }

  /** The first segment from c on at which v stays; the last one takes the rest. */
  function SegmentFrom<T(!new)>(lt: (T, T) -> bool, p: seq<T>, c: int, v: T): (r: int)
    requires 0 <= c <= |p|
    ensures c <= r <= |p|
    ensures forall k :: c <= k < r ==> !Stays(lt, p, k, v)
    ensures r < |p| ==> Stays(lt, p, r, v)
    decreases |p| - c
  {
    if c == |p| || Stays(lt, p, c, v) then c else SegmentFrom(lt, p, c + 1, v)
  }

  function Segment<T(!new)>(lt: (T, T) -> bool, p: seq<T>): T -> int {
    v => SegmentFrom(lt, p, 0, v)
  }

  lemma SegmentIs<T(!new)>(lt: (T, T) -> bool, p: seq<T>, c: int, v: T)
    requires 0 <= c <= |p| && (forall k :: 0 <= k < c ==> !Stays(lt, p, k, v)) && (c < |p| ==> Stays(lt, p, c, v))
    ensures Segment(lt, p)(v) == c
  {
    var r := SegmentFrom(lt, p, 0, v);
    assert r < |p| ==> Stays(lt, p, r, v);
  }

  lemma StaysDown<T(!new)>(lt: (T, T) -> bool, p: seq<T>, c: int, u: T, v: T)
    requires StrictWeak(lt) && 0 <= c < |p| && !lt(v, u) && Stays(lt, p, c, v)
    ensures Stays(lt, p, c, u)
  {
    if TakesEqual(lt, p, c) {
      NotLessTrans(lt, p[c], v, u);
    } else {
      LessTransRight(lt, u, v, p[c]);
    }
  }

  /** Elements of an earlier segment do not exceed those of a later one. */
  lemma SegmentsOrdered<T(!new)>(lt: (T, T) -> bool, p: seq<T>, u: T, v: T)
    requires StrictWeak(lt) && Segment(lt, p)(u) < Segment(lt, p)(v)
    ensures !lt(v, u)
  {
    var c := SegmentFrom(lt, p, 0, u);
    if lt(v, u) {
      Asymmetric(lt, v, u);
      StaysDown(lt, p, c, v, u);
    }
  }

  /** Between two equal pivots all elements are equal. */
  lemma SegmentOfEquals<T(!new)>(lt: (T, T) -> bool, p: seq<T>, c: int, u: T, v: T)
    requires StrictWeak(lt) && 0 < c < |p| && !lt(p[c - 1], p[c])
    requires Segment(lt, p)(u) == c && Segment(lt, p)(v) == c
    ensures !lt(u, v) && !lt(v, u)
  {
    assert Stays(lt, p, c, u) && !Stays(lt, p, c - 1, u);
    assert Stays(lt, p, c, v) && !Stays(lt, p, c - 1, v);
    if TakesEqual(lt, p, c) {
      NotLessTrans(lt, u, p[c - 1], p[c]);
      NotLessTrans(lt, u, p[c], v);
      NotLessTrans(lt, v, p[c - 1], p[c]);
      NotLessTrans(lt, v, p[c], u);
    } else {
      Asymmetric(lt, u, p[c]);
      LessTrans(lt, p[c - 1], u, p[c]);
      assert false;
    }
  }

  // ----- what the segments are for sorted pivots -----

  /** Where the pivots stop being less than v. */
  lemma {:induction false} FirstNotLess<T(!new)>(lt: (T, T) -> bool, p: seq<T>, v: T, k: int) returns (n: int)
    requires StrictWeak(lt) && Sorted(lt, p, 0, |p|) && 0 <= k <= |p| && forall i :: 0 <= i < k ==> lt(p[i], v)
    ensures k <= n <= |p| && (forall i :: 0 <= i < n ==> lt(p[i], v)) && (forall i :: n <= i < |p| ==> !lt(p[i], v))
    decreases |p| - k
  {
    if k < |p| && lt(p[k], v) {
      n := FirstNotLess(lt, p, v, k + 1);
    } else {
      n := k;
      forall i | n <= i < |p|
        ensures !lt(p[i], v)
      {
        if k < i { NotLessTrans(lt, p[i], p[k], v); }
      }
    }
  }

  ghost predicate EqualsSome<T(!new)>(lt: (T, T) -> bool, p: seq<T>, v: T) {
    exists i :: 0 <= i < |p| && !lt(p[i], v) && !lt(v, p[i])
  }

  /** The number of pivots less than v, and one more if v equals a pivot. */
  ghost function SegmentNumber<T(!new)>(lt: (T, T) -> bool, p: seq<T>, v: T): int {
    CountLess(lt, p, 0, |p|, v) + (if EqualsSome(lt, p, v) then 1 else 0)
  }

  lemma SegmentIsCount<T(!new)>(lt: (T, T) -> bool, p: seq<T>, v: T)
    requires StrictWeak(lt) && Sorted(lt, p, 0, |p|)
    ensures Segment(lt, p)(v) == SegmentNumber(lt, p, v)
  {
    var n := FirstNotLess(lt, p, v, 0);
    CountSplit(lt, p, 0, n, |p|, v);
    forall k | 0 <= k < n
      ensures !Stays(lt, p, k, v)
    {
      Asymmetric(lt, p[k], v);
    }
    if EqualsSome(lt, p, v) {
      var i :| 0 <= i < |p| && !lt(p[i], v) && !lt(v, p[i]);
      PassesEqual(lt, p, v, n, i);
      SegmentIs(lt, p, n + 1, v);
    } else {
      SegmentIs(lt, p, n, v);
    }
  }

  /** An element equal to a pivot passes the first such pivot and stays at the next. */
  lemma PassesEqual<T(!new)>(lt: (T, T) -> bool, p: seq<T>, v: T, n: int, i: int)
    requires StrictWeak(lt) && Sorted(lt, p, 0, |p|) && 0 <= n <= i < |p| && !lt(p[i], v) && !lt(v, p[i])
    requires (forall k :: 0 <= k < n ==> lt(p[k], v)) && !lt(p[n], v)
    ensures !Stays(lt, p, n, v) && (n + 1 < |p| ==> Stays(lt, p, n + 1, v))
  {
    if n < i { NotLessTrans(lt, v, p[i], p[n]); }
    assert !lt(v, p[n]);
    if n > 0 { LessTrans(lt, p[n - 1], v, p[n]); }
    assert !TakesEqual(lt, p, n);
    if n + 1 < |p| {
      if lt(p[n], p[n + 1]) {
        LessTransRight(lt, v, p[n], p[n + 1]);
      } else {
        NotLessTrans(lt, p[n + 1], p[n], v);
      }
    }
  }

  /** The first pivot is in segment 1; the second one is beyond it unless the two are equal. */
  lemma PivotSegments<T(!new)>(lt: (T, T) -> bool, p: seq<T>)
    requires StrictWeak(lt) && 2 <= |p| && !lt(p[1], p[0])
    ensures Segment(lt, p)(p[0]) == 1
    ensures lt(p[0], p[1]) ==> Segment(lt, p)(p[1]) >= 2
  {
    Irreflexive(lt, p[0]);
    Irreflexive(lt, p[1]);
    assert !TakesEqual(lt, p, 0);
    SegmentIs(lt, p, 1, p[0]);
    if lt(p[0], p[1]) {
      assert !Stays(lt, p, 0, p[1]) && !Stays(lt, p, 1, p[1]);
    }
  }

  // ----- the counts -----

  /** The k-th element counted in cell y belongs to segment y - off. */
  ghost predicate InSegment<T(!new)>(lt: (T, T) -> bool, p: seq<T>, v: seq<T>, lo: int, counts: seq<int>, off: int, y: int, k: int)
    requires 0 <= off <= y <= |counts|
  {
    var x := lo + Sum(counts, off, y) + k;
    0 <= x < |v| && Segment(lt, p)(v[x]) == y - off
  }

  /** Counts off.. split cells lo..hi-1 into the segments. */
  ghost predicate Counted<T(!new)>(lt: (T, T) -> bool, p: seq<T>, v: seq<T>, lo: int, hi: int, counts: seq<int>, off: int) {
    && 0 <= lo <= hi <= |v| && 0 <= off && off + |p| < |counts|
    && (forall y :: off <= y <= off + |p| ==> counts[y] >= 0)
    && Sum(counts, off, off + |p| + 1) == hi - lo
    && (forall y, k :: off <= y <= off + |p| && 0 <= k < counts[y] ==> InSegment(lt, p, v, lo, counts, off, y, k))
  }

  /** The k-th element counted in cell y has y - off as its number. */
  ghost predicate IsNumbered<T(!new)>(lt: (T, T) -> bool, p: seq<T>, v: seq<T>, lo: int, counts: seq<int>, off: int, y: int, k: int)
    requires 0 <= off <= y <= |counts|
  {
    var x := lo + Sum(counts, off, y) + k;
    0 <= x < |v| && SegmentNumber(lt, p, v[x]) == y - off
  }

  /** For pivots in order the counts are those of the elements with each number, in order. */
  lemma CountsNumbers<T(!new)>(lt: (T, T) -> bool, p: seq<T>, v: seq<T>, lo: int, hi: int, counts: seq<int>, off: int)
    requires StrictWeak(lt) && Sorted(lt, p, 0, |p|) && Counted(lt, p, v, lo, hi, counts, off)
    ensures 0 <= off && off + |p| < |counts| && Sum(counts, off, off + |p| + 1) == hi - lo
    ensures forall y, k :: off <= y <= off + |p| && 0 <= k < counts[y] ==> IsNumbered(lt, p, v, lo, counts, off, y, k)
  {
    hide Segment, SegmentNumber;
    forall y, k | off <= y <= off + |p| && 0 <= k < counts[y]
      ensures IsNumbered(lt, p, v, lo, counts, off, y, k)
    {
      assert InSegment(lt, p, v, lo, counts, off, y, k);
      SegmentIsCount(lt, p, v[lo + Sum(counts, off, y) + k]);
    }
  }

  /** Cells lo..x-1 are counted, the merge has reached segment c, and no later element stays before it. */
  ghost predicate Merging<T(!new)>(lt: (T, T) -> bool, p: seq<T>, v: seq<T>, lo: int, x: int, hi: int, counts: seq<int>, off: int, c: int) {
    && 0 <= lo <= x <= hi <= |v| && 0 <= off && off + |p| < |counts| && 0 <= c <= |p|
    && (forall y :: off <= y <= off + |p| ==> if y <= off + c then counts[y] >= 0 else counts[y] == 0)
    && x == lo + Sum(counts, off, off + c + 1)
    && (forall y, k :: off <= y <= off + c && 0 <= k < counts[y] ==> InSegment(lt, p, v, lo, counts, off, y, k))
    && (forall q, z :: 0 <= q < c && x <= z < hi ==> !Stays(lt, p, q, v[z]))
  }

  lemma {:induction false} SumZeros(v: seq<int>, lo: int, hi: int)
    requires 0 <= lo && hi <= |v| && forall i :: lo <= i < hi ==> v[i] == 0
    ensures Sum(v, lo, hi) == 0
    decreases hi - lo
  {
    if lo < hi {
      SumZeros(v, lo, hi - 1);
    }
  }

  /** The next element stays: its segment counts one more. */
  lemma CountOne<T(!new)>(lt: (T, T) -> bool, p: seq<T>, v: seq<T>, lo: int, x: int, hi: int, counts: seq<int>, off: int, c: int)
    requires Merging(lt, p, v, lo, x, hi, counts, off, c) && c < |p| && x < hi && Stays(lt, p, c, v[x])
    ensures Merging(lt, p, v, lo, x + 1, hi, counts[off + c := counts[off + c] + 1], off, c)
  {
    var next := counts[off + c := counts[off + c] + 1];
    SumSame(counts, next, off, off + c);
    SegmentIs(lt, p, c, v[x]);
    forall y, k | off <= y <= off + c && 0 <= k < next[y]
      ensures InSegment(lt, p, v, lo, next, off, y, k)
    {
      SumSame(counts, next, off, y);
      if y < off + c || k < counts[y] {
        assert InSegment(lt, p, v, lo, counts, off, y, k);
      }
    }
  }

  /** The next element does not stay, and so no later one does: on to the next segment. */
  lemma NextSegment<T(!new)>(lt: (T, T) -> bool, p: seq<T>, v: seq<T>, lo: int, x: int, hi: int, counts: seq<int>, off: int, c: int)
    requires StrictWeak(lt) && Merging(lt, p, v, lo, x, hi, counts, off, c) && c < |p| && Sorted(lt, v, lo, hi)
    requires x < hi && !Stays(lt, p, c, v[x])
    ensures Merging(lt, p, v, lo, x, hi, counts, off, c + 1)
  {
    forall z | x <= z < hi
      ensures !Stays(lt, p, c, v[z])
    {
      if Stays(lt, p, c, v[z]) && x < z {
        StaysDown(lt, p, c, v[x], v[z]);
      }
    }
  }

  lemma MergingStart<T(!new)>(lt: (T, T) -> bool, p: seq<T>, v: seq<T>, lo: int, hi: int, counts: seq<int>, off: int)
    requires 0 <= lo <= hi <= |v| && 0 <= off && off + |p| < |counts|
    requires forall y :: off <= y <= off + |p| ==> counts[y] == 0
    ensures Merging(lt, p, v, lo, lo, hi, counts, off, 0)
  {
    SumZeros(counts, off, off + 1);
  }

  /** Nothing is left. */
  lemma MergedAll<T(!new)>(lt: (T, T) -> bool, p: seq<T>, v: seq<T>, lo: int, hi: int, counts: seq<int>, off: int, c: int)
    requires Merging(lt, p, v, lo, hi, hi, counts, off, c)
    ensures Counted(lt, p, v, lo, hi, counts, off)
  {
    SumSplit(counts, off, off + c + 1, off + |p| + 1);
    SumZeros(counts, off + c + 1, off + |p| + 1);
  }

  /** The last segment takes the rest. */
  lemma MergedRest<T(!new)>(lt: (T, T) -> bool, p: seq<T>, v: seq<T>, lo: int, x: int, hi: int, counts: seq<int>, off: int)
    requires Merging(lt, p, v, lo, x, hi, counts, off, |p|) && counts[off + |p|] == 0
    ensures Counted(lt, p, v, lo, hi, counts[off + |p| := hi - x], off)
  {
    var next := counts[off + |p| := hi - x];
    SumSame(counts, next, off, off + |p|);
    forall y, k | off <= y <= off + |p| && 0 <= k < next[y]
      ensures InSegment(lt, p, v, lo, next, off, y, k)
    {
      SumSame(counts, next, off, y);
      if y < off + |p| {
        assert InSegment(lt, p, v, lo, counts, off, y, k);
      } else {
        SegmentIs(lt, p, |p|, v[x + k]);
      }
    }
  }

  lemma MergingParts<T(!new)>(lt: (T, T) -> bool, p: seq<T>, v: seq<T>, lo: int, x: int, hi: int, counts: seq<int>, off: int, c: int)
    requires Merging(lt, p, v, lo, x, hi, counts, off, c)
    ensures 0 <= lo <= x <= hi <= |v| && 0 <= off && off + |p| < |counts| && 0 <= c <= |p|
    ensures forall y :: off + c < y <= off + |p| ==> counts[y] == 0
  {
  }

  // ----- the merge -----

  /** Counts elements as long as they stay at segment c. */
  method CountRun<T(!new)>(a: array<T>, ghost lo: int, x0: int, hi: int, pivots: array<T>, counts: array<int>, off: int, c: int,
                           equal: bool, lt: (T, T) -> bool)
    returns (x: int)
    requires (counts as object) != a && (counts as object) != pivots && hi <= a.Length && 0 <= c < pivots.Length
    requires equal == TakesEqual(lt, pivots[..], c)
    requires Merging(lt, pivots[..], a[..], lo, x0, hi, counts[..], off, c)
    modifies counts
    ensures Merging(lt, pivots[..], a[..], lo, x, hi, counts[..], off, c)
    ensures x < hi ==> !Stays(lt, pivots[..], c, a[x])
    ensures forall y :: 0 <= y < counts.Length && !(off <= y <= off + pivots.Length) ==> counts[y] == old(counts[y])
  {
    hide Merging;
    ghost var p, v := pivots[..], a[..];
    x := x0;
    MergingParts(lt, p, v, lo, x, hi, counts[..], off, c);
    while x < hi && (if equal then !lt(pivots[c], a[x]) else lt(a[x], pivots[c]))
      invariant lo <= x <= hi && pivots[..] == p && a[..] == v
      invariant Merging(lt, p, v, lo, x, hi, counts[..], off, c)
      invariant forall y :: 0 <= y < counts.Length && !(off <= y <= off + pivots.Length) ==> counts[y] == old(counts[y])
    {
      CountOne(lt, p, v, lo, x, hi, counts[..], off, c);
      counts[off + c] := counts[off + c] + 1;
      x := x + 1;
    }
  }

  method CountSegments<T(!new)>(a: array<T>, lo: int, hi: int, pivots: array<T>, counts: array<int>, off: int, lt: (T, T) -> bool)
    requires StrictWeak(lt) && 0 <= lo <= hi <= a.Length && Sorted(lt, a[..], lo, hi)
    requires 0 <= off && off + pivots.Length < counts.Length
    requires (counts as object) != a && (counts as object) != pivots
    modifies counts
    ensures if lo == hi || pivots.Length == 0 then counts[..] == old(counts[..])
            else Counted(lt, pivots[..], a[..], lo, hi, counts[..], off)
    ensures forall y :: 0 <= y < counts.Length && !(off <= y <= off + pivots.Length) ==> counts[y] == old(counts[y])
  {
    hide Merging, Counted;
    if lo == hi || pivots.Length == 0 { return; }
    ghost var p, v := pivots[..], a[..];
    for i := 0 to pivots.Length + 1
      invariant forall y :: off <= y < off + i ==> counts[y] == 0
      invariant forall y :: 0 <= y < counts.Length && !(off <= y <= off + pivots.Length) ==> counts[y] == old(counts[y])
      invariant pivots[..] == p && a[..] == v
    {
      counts[off + i] := 0;
    }
    var x, c := lo, 0;
    MergingStart(lt, p, v, lo, hi, counts[..], off);
    while true
      invariant lo <= x < hi && 0 <= c < pivots.Length && pivots[..] == p && a[..] == v && !TakesEqual(lt, p, c)
      invariant Merging(lt, p, v, lo, x, hi, counts[..], off, c)
      invariant forall y :: 0 <= y < counts.Length && !(off <= y <= off + pivots.Length) ==> counts[y] == old(counts[y])
      decreases pivots.Length - c
    {
      x := CountRun(a, lo, x, hi, pivots, counts, off, c, false, lt);
      MergingParts(lt, p, v, lo, x, hi, counts[..], off, c);
      if x == hi { MergedAll(lt, p, v, lo, hi, counts[..], off, c); return; }
      NextSegment(lt, p, v, lo, x, hi, counts[..], off, c);
      c := c + 1;
      if c == pivots.Length { break; }
      if !lt(pivots[c - 1], pivots[c]) {
        x := CountRun(a, lo, x, hi, pivots, counts, off, c, true, lt);
        MergingParts(lt, p, v, lo, x, hi, counts[..], off, c);
        if x == hi { MergedAll(lt, p, v, lo, hi, counts[..], off, c); return; }
        NextSegment(lt, p, v, lo, x, hi, counts[..], off, c);
        c := c + 1;
        if c == pivots.Length { break; }
      }
    }
    MergedRest(lt, p, v, lo, x, hi, counts[..], off);
    counts[off + c] := hi - x;
  }

  /** Counts the elements of the sorted cells lo..hi-1 by segment into counts[off..]; without elements
      or pivots it writes nothing. */
  method MergeSeq<T(!new)>(a: array<T>, lo: int, hi: int, pivots: array<T>, counts: array<int>, off: int, lt: (T, T) -> bool)
    requires StrictWeak(lt) && 0 <= lo <= hi <= a.Length && Sorted(lt, a[..], lo, hi)
    requires 0 <= off && off + pivots.Length < counts.Length
    requires (counts as object) != a && (counts as object) != pivots
    modifies counts
    ensures if lo == hi || pivots.Length == 0 then counts[..] == old(counts[..])
            else Counted(lt, pivots[..], a[..], lo, hi, counts[..], off)
    ensures lo < hi && 0 < pivots.Length && Sorted(lt, pivots[..], 0, pivots.Length) ==>
              && Sum(counts[..], off, off + pivots.Length + 1) == hi - lo
              && (forall y, k :: off <= y <= off + pivots.Length && 0 <= k < counts[y] ==>
                    IsNumbered(lt, pivots[..], a[..], lo, counts[..], off, y, k))
    ensures forall y :: 0 <= y < counts.Length && !(off <= y <= off + pivots.Length) ==> counts[y] == old(counts[y])
  {
    hide Counted, Sorted;
    CountSegments(a, lo, hi, pivots, counts, off, lt);
    if lo < hi && 0 < pivots.Length && Sorted(lt, pivots[..], 0, pivots.Length) {
      CountsNumbers(lt, pivots[..], a[..], lo, hi, counts[..], off);
    }
  }
}
