/** The explicit-stack driver of EdelkampWeiss/quicksort.h over the moving-hole block partitions. */
module StackSort {
  import opened Orders
  import opened PdqPartition
  import opened PdqSteps
  import opened SumTree
  import opened OpenRanges
  import HolePartition

  const IS_THRESH := 20

  // Ranges on the stack may be empty; every pair of cells matters; weights count 2 * cells + 1.
  const LEAST := -1
  const FAR := 0
  const UNIT := 3

  /** What one partition of b..e-1 leaves: a window of equal elements from pos on, of length len. */
  ghost predicate CutAround<T(!new)>(lt: (T, T) -> bool, s: seq<T>, t: seq<T>, b: int, e: int, pos: int, len: int) {
    && Permuted(s, t, b, e) && b <= pos && 1 <= len && pos + len <= e
    && Sorted(lt, t, pos, pos + len)
    && exists p :: SplitBy(lt, t, b, e, pos, len, p)
  }

  ghost predicate SplitBy<T(!new)>(lt: (T, T) -> bool, t: seq<T>, b: int, e: int, pos: int, len: int, p: T)
    requires 0 <= b && 0 <= pos && 0 <= len && e <= |t| && pos + len <= |t|
  {
    NoneMore(lt, t, b, pos + len, p) && NoneLess(lt, t, pos, e, p)
  }

  /** Median of three to the middle, the others to the ends, and a block partition in between. */
  method Partition<T(!new)>(a: array<T>, b: int, e: int, lt: (T, T) -> bool, blockSize: int, equal: bool)
    returns (pos: int, len: int)
    requires StrictWeak(lt) && 0 < blockSize && 0 <= b && e <= a.Length && 3 < e - b
    modifies a
    ensures 0 <= b <= pos && CutAround(lt, old(a[..]), a[..], b, e, pos, len)
    ensures exists p :: IsMedian(lt, p, old(a[b]), old(a[b + (e - b) / 2]), old(a[e - 1])) && SplitBy(lt, a[..], b, e, pos, len, p)
    ensures !equal ==> len == 1
  {
    hide IsMedian, CutAround, SplitBy, Permuted, StrictWeak, HolePartition.Windowed, HolePartition.Parted, HolePartition.FoundLeft,
      HolePartition.FoundRight, HolePartition.Repeats, HolePartition.BadlySplit, HolePartition.SearchedUp, HolePartition.SearchedDown;
    ghost var s := a[..];
    var mid := b + (e - b) / 2;
    Sort3(a, b, mid, e - 1, lt, b, e);
    ghost var t, p := a[..], a[mid];
    if equal {
      ghost var m, stop;
      pos, len, m, stop := HolePartition.BlockPartitionEqual(a, b + 1, e - 1, mid, lt, blockSize);
      EqualCuts(lt, s, t, a[..], p, b, e, pos, len);
    } else {
      ghost var m;
      pos, m := HolePartition.BlockPartition(a, b + 1, e - 1, mid, lt, blockSize);
      len := 1;
      Irreflexive(lt, p);
      HolePartition.WindowStart(lt, t, a[..], p, b + 1, pos, e - 1);
      EqualCuts(lt, s, t, a[..], p, b, e, pos, len);
    }
  }

  /** The sample at both ends completes the partition of the inner range. */
  lemma EqualCuts<T(!new)>(lt: (T, T) -> bool, s: seq<T>, t: seq<T>, u: seq<T>, p: T, b: int, e: int, pos: int, len: int)
    requires StrictWeak(lt) && Permuted(s, t, b, e) && 0 <= b < e - 1
    requires !lt(p, t[b]) && !lt(t[e - 1], p)
    requires HolePartition.Windowed(lt, t, u, p, b + 1, pos, len, e - 1)
    ensures CutAround(lt, s, u, b, e, pos, len) && SplitBy(lt, u, b, e, pos, len, p)
  {
    PermutedWiden(t, u, b + 1, e - 1, b, e);
    PermutedTrans(s, t, u, b, e);
    forall i, k | pos <= i < k < pos + len
      ensures !lt(u[k], u[i])
    {
      NotLessTrans(lt, u[k], p, u[i]);
    }
    assert u[b] == t[b] && u[e - 1] == t[e - 1];
    assert SplitBy(lt, u, b, e, pos, len, p);
  }

  /** The pending ranges after a cut: the longer part is stacked, the shorter one, at most half of
      the range, comes next. */
  ghost function AfterCut(rest: seq<StackNode>, b: int, e: int, pos: int, len: int): seq<StackNode> {
    var l, r := StackNode(b, pos - 1), StackNode(pos + len, e - 1);
    if pos - b > e - pos then rest + [l] + [r] else rest + [r] + [l]
  }

  lemma CutWeighsLess(rest: seq<StackNode>, b: int, e: int, pos: int, len: int)
    requires b <= pos && 1 <= len && pos + len <= e
    ensures Weight(AfterCut(rest, b, e, pos, len), UNIT) < Weight(rest + [StackNode(b, e - 1)], UNIT)
  {
    var l, r := StackNode(b, pos - 1), StackNode(pos + len, e - 1);
    WeightPush(rest, StackNode(b, e - 1), UNIT);
    WeightPush(rest, l, UNIT);
    WeightPush(rest, r, UNIT);
    WeightPush(rest + [l], r, UNIT);
    WeightPush(rest + [r], l, UNIT);
  }

  lemma CutStep<T(!new)>(lt: (T, T) -> bool, s: seq<T>, t: seq<T>, rest: seq<StackNode>, b: int, e: int, pos: int, len: int)
    requires StrictWeak(lt) && Near(lt, s, rest + [StackNode(b, e - 1)], FAR) && Stacked(lt, s, rest + [StackNode(b, e - 1)], LEAST)
    requires 0 <= b && CutAround(lt, s, t, b, e, pos, len)
    ensures Near(lt, t, AfterCut(rest, b, e, pos, len), FAR) && Stacked(lt, t, AfterCut(rest, b, e, pos, len), LEAST)
    ensures Weight(AfterCut(rest, b, e, pos, len), UNIT) < Weight(rest + [StackNode(b, e - 1)], UNIT)
  {
    hide Near, Stacked, Weight, Cut, Open;
    var cur, l, r := StackNode(b, e - 1), StackNode(b, pos - 1), StackNode(pos + len, e - 1);
    StackedKept(lt, s, t, rest, cur, LEAST);
    CutsOpen(lt, t, rest, b, e, pos, len);
    CutWeighsLess(rest, b, e, pos, len);
    NearStep(lt, s, t, rest, cur, pos + len, pos - 1, AfterCut(rest, b, e, pos, len), LEAST, FAR);
    if pos - b > e - pos {
      StackedSplit(lt, t, rest, cur, l, r, LEAST);
    } else {
      StackedSplit(lt, t, rest, cur, r, l, LEAST);
    }
  }

  lemma CutsOpen<T(!new)>(lt: (T, T) -> bool, t: seq<T>, rest: seq<StackNode>, b: int, e: int, pos: int, len: int)
    requires StrictWeak(lt) && Stacked(lt, t, rest + [StackNode(b, e - 1)], LEAST)
    requires 0 <= b <= pos && 1 <= len && pos + len <= e <= |t| && exists p :: SplitBy(lt, t, b, e, pos, len, p)
    ensures Open(lt, t, StackNode(b, e - 1), LEAST) && Cut(lt, t, pos) && Cut(lt, t, pos + len)
    ensures Open(lt, t, StackNode(b, pos - 1), LEAST) && Open(lt, t, StackNode(pos + len, e - 1), LEAST)
  {
    var cur := StackNode(b, e - 1);
    assert (rest + [cur])[|rest|] == cur;
    var p :| SplitBy(lt, t, b, e, pos, len, p);
    NewCut(lt, t, b, e - 1, pos, p);
    NewCut(lt, t, b, e - 1, pos + len, p);
  }

  // ----- how often a cell takes part in a partition -----

  /** Partitioning b..e-1 counts once more for each of its cells. */
  ghost function Again(times: seq<int>, b: int, e: int): (r: seq<int>)
    ensures |r| == |times|
  {
    seq(|times|, x requires 0 <= x < |times| => times[x] + (if b <= x < e then 1 else 0))
  }

  /** No cell has taken part more than `limit` times, and those of a pending range exactly as often as
      the depth noted for it says. */
  ghost predicate Deep(times: seq<int>, pending: seq<StackNode>, depths: seq<int>, limit: int) {
    && |depths| == |pending|
    && (forall x :: 0 <= x < |times| ==> 0 <= times[x] && (times[x] == 0 || times[x] <= limit))
    && (forall j, x :: 0 <= j < |pending| && 0 <= x < |times| && pending[j].lo <= x <= pending[j].hi ==> times[x] == depths[j])
  }

  /** The depths noted for the pending ranges. */
  ghost function Depths(depthStack: seq<int>, top: int, depth: int): seq<int>
    requires 0 <= top <= |depthStack|
  {
    if top == 0 then [] else depthStack[1..top] + [depth]
  }

  lemma DeepCut<T(!new)>(lt: (T, T) -> bool, s: seq<T>, times: seq<int>, rest: seq<StackNode>, depths: seq<int>,
                         b: int, e: int, pos: int, len: int, d: int, limit: int)
    requires Stacked(lt, s, rest + [StackNode(b, e - 1)], LEAST) && Deep(times, rest + [StackNode(b, e - 1)], depths + [d], limit)
    requires d < limit && b <= pos && 1 <= len && pos + len <= e
    ensures Deep(Again(times, b, e), AfterCut(rest, b, e, pos, len), depths + [d + 1] + [d + 1], limit)
  {
    var was, after := rest + [StackNode(b, e - 1)], AfterCut(rest, b, e, pos, len);
    assert was[|rest|] == StackNode(b, e - 1) && (depths + [d])[|rest|] == d;
    forall j, x | 0 <= j < |after| && 0 <= x < |times| && after[j].lo <= x <= after[j].hi
      ensures Again(times, b, e)[x] == (depths + [d + 1] + [d + 1])[j]
    {
      if j < |rest| {
        assert was[j] == rest[j] && (depths + [d])[j] == depths[j];
      }
    }
  }

  lemma DeepDone(times: seq<int>, rest: seq<StackNode>, cur: StackNode, depths: seq<int>, d: int, limit: int)
    requires Deep(times, rest + [cur], depths + [d], limit)
    ensures Deep(times, rest, depths, limit)
  {
    assert forall j :: 0 <= j < |rest| ==> (rest + [cur])[j] == rest[j] && (depths + [d])[j] == depths[j];
  }

  /** Sorting the current range takes it off the pending ones. */
  lemma SortStep<T(!new)>(lt: (T, T) -> bool, s: seq<T>, t: seq<T>, rest: seq<StackNode>, cur: StackNode)
    requires Near(lt, s, rest + [cur], FAR) && Stacked(lt, s, rest + [cur], LEAST)
    requires Permuted(s, t, cur.lo, cur.hi + 1) && Sorted(lt, t, cur.lo, cur.hi + 1)
    ensures Near(lt, t, rest, FAR) && Stacked(lt, t, rest, LEAST)
  {
    StackedKept(lt, s, t, rest, cur, LEAST);
    StackedDrop(lt, t, rest, cur, LEAST);
    assert (rest + [cur])[|rest|] == cur;
    assert Open(lt, t, cur, LEAST);
    NearStep(lt, s, t, rest, cur, cur.hi + 1, cur.lo - 1, rest, LEAST, FAR);
  }

  /** A range above the threshold finds room on the stack for its longer part. */
  lemma PushRoom<T(!new)>(lt: (T, T) -> bool, s: seq<T>, rest: seq<StackNode>, cur: StackNode, capacity: nat)
    requires Stacked(lt, s, rest + [cur], LEAST) && IS_THRESH < cur.hi - cur.lo + 1
    requires 1 <= capacity && |s| <= IS_THRESH * Pow2(capacity - 1)
    ensures |rest| + 1 < capacity
  {
    var j := |rest|;
    assert (rest + [cur])[j] == cur;
    MulMonotone(Pow2(j), IS_THRESH + 1, cur.hi - cur.lo + 1);
    if capacity - 1 <= j {
      Pow2Monotone(capacity - 1, j);
    }
  }

  lemma AllSorted<T(!new)>(lt: (T, T) -> bool, s: seq<T>)
    requires Near(lt, s, [], FAR)
    ensures Sorted(lt, s, 0, |s|)
  {
    NearOrdered(lt, s, FAR);
  }

  /** Sorts for every depth limit, and no cell takes part in more partitions than that. A stack of `capacity` ranges, the whole array's at its bottom,
      never overflows while the array has at most IS_THRESH * 2^(capacity - 1) elements. */
  method QuickSort<T(!new)>(a: array<T>, lt: (T, T) -> bool, blockSize: int, depthLimit: int, capacity: nat, equal: bool)
    returns (ghost times: seq<int>)
    requires StrictWeak(lt) && 0 < blockSize && 1 <= capacity && a.Length <= IS_THRESH * Pow2(capacity - 1)
    modifies a
    ensures Permuted(old(a[..]), a[..], 0, a.Length) && Sorted(lt, a[..], 0, a.Length)
    ensures |times| == a.Length && forall x :: 0 <= x < a.Length ==> times[x] == 0 || 0 < times[x] <= depthLimit
  {
    hide Near, Stacked, Weight, AfterCut, Sorted, Permuted, Pending, Deep, Depths, Again;
    var begin, end := 0, a.Length;
    var stack, depthStack := new StackNode[capacity](_ => StackNode(0, -1)), new int[capacity](_ => 0);
    var top, depth := 0, 0;
    stack[top], depthStack[top] := StackNode(begin, end - 1), 0;
    top := top + 1;
    Start(lt, a[..]);
    PermutedSelf(a[..], 0, a.Length);
    PendingTop(stack[..], top, begin, end - 1);
    assert Pending(stack[..], top, begin, end - 1) == [StackNode(begin, end - 1)];
    times := seq(a.Length, _ => 0);
    DeepStart(times, Pending(stack[..], top, begin, end - 1), depthStack[..], depthLimit);
    while top != 0
      invariant 0 <= top <= capacity && stack.Length == depthStack.Length == capacity
      invariant Permuted(old(a[..]), a[..], 0, a.Length)
      invariant Stacked(lt, a[..], Pending(stack[..], top, begin, end - 1), LEAST)
      invariant Near(lt, a[..], Pending(stack[..], top, begin, end - 1), FAR)
      invariant |times| == a.Length && Deep(times, Pending(stack[..], top, begin, end - 1), Depths(depthStack[..], top, depth), depthLimit)
      decreases Weight(Pending(stack[..], top, begin, end - 1), UNIT)
    {
      ghost var s := a[..];
      PendingTop(stack[..], top, begin, end - 1);
      CurrentRange(lt, s, stack[1..top], StackNode(begin, end - 1));
      if depth < depthLimit && end - begin > IS_THRESH {
        begin, end, times := CutDeeper(a, lt, blockSize, equal, stack, depthStack, top, depth, begin, end, times, depthLimit);
        top, depth := top + 1, depth + 1;
      } else {
        SortCurrent(a, lt, stack[1..top], begin, end);
        DepthsTop(depthStack[..], top, depth);
        DeepDone(times, stack[1..top], StackNode(begin, end - 1), depthStack[1..top], depth, depthLimit);
        top := top - 1;
        begin, end, depth := stack[top].lo, stack[top].hi + 1, depthStack[top];
        DepthsPopped(depthStack[..], top);
        PendingPopped(stack[..], top);
      }
      PermutedTrans(old(a[..]), s, a[..], 0, a.Length);
    }
    PendingNone(stack[..], begin, end - 1);
    AllSorted(lt, a[..]);
    DeepEnd(times, Pending(stack[..], top, begin, end - 1), Depths(depthStack[..], top, depth), depthLimit);
  }

  lemma DeepStart(times: seq<int>, pending: seq<StackNode>, depthStack: seq<int>, limit: int)
    requires (forall x :: 0 <= x < |times| ==> times[x] == 0) && |pending| == 1 <= |depthStack|
    ensures Deep(times, pending, Depths(depthStack, 1, 0), limit)
  {
  }

  lemma DeepEnd(times: seq<int>, pending: seq<StackNode>, depths: seq<int>, limit: int)
    requires Deep(times, pending, depths, limit)
    ensures forall x :: 0 <= x < |times| ==> times[x] == 0 || 0 < times[x] <= limit
  {
  }

  lemma DepthsTop(depthStack: seq<int>, top: int, depth: int)
    requires 0 < top <= |depthStack|
    ensures Depths(depthStack, top, depth) == depthStack[1..top] + [depth]
  {
  }

  lemma DepthsPushed(depthStack: seq<int>, top: int, depth: int, depths: seq<int>)
    requires 1 < top <= |depthStack| && depths == depthStack[1..top - 1] && depthStack[top - 1] == depth
    ensures Depths(depthStack, top, depth) == depths + [depth] + [depth]
  {
  }

  lemma DepthsPopped(depthStack: seq<int>, top: int)
    requires 0 <= top < |depthStack|
    ensures Depths(depthStack, top, depthStack[top]) == depthStack[1..top + 1]
  {
  }

  lemma PendingTop(stack: seq<StackNode>, top: int, lo: int, hi: int)
    requires 0 < top <= |stack|
    ensures Pending(stack, top, lo, hi) == stack[1..top] + [StackNode(lo, hi)]
  {
  }

  lemma PendingNone(stack: seq<StackNode>, lo: int, hi: int)
    ensures Pending(stack, 0, lo, hi) == []
  {
  }

  lemma PendingPopped(stack: seq<StackNode>, top: int)
    requires 0 <= top < |stack|
    ensures Pending(stack, top, stack[top].lo, stack[top].hi) == stack[1..top + 1]
  {
  }

  /** The first branch of the loop: one partition and one push. */
  method CutCurrent<T(!new)>(a: array<T>, lt: (T, T) -> bool, blockSize: int, equal: bool, stack: array<StackNode>,
                             top: int, begin0: int, end0: int)
    returns (begin: int, end: int, ghost pos: int, ghost len: int)
    requires StrictWeak(lt) && 0 < blockSize && 0 < top <= stack.Length && IS_THRESH < end0 - begin0
    requires 0 <= begin0 && end0 <= a.Length && a.Length <= IS_THRESH * Pow2(stack.Length - 1) && (stack as object) != a
    requires Stacked(lt, a[..], Pending(stack[..], top, begin0, end0 - 1), LEAST)
    requires Near(lt, a[..], Pending(stack[..], top, begin0, end0 - 1), FAR)
    modifies a, stack
    ensures top < stack.Length && Permuted(old(a[..]), a[..], 0, a.Length)
    ensures begin0 <= pos && 1 <= len && pos + len <= end0 && (!equal ==> len == 1)
    ensures Pending(stack[..], top + 1, begin, end - 1) == AfterCut(old(stack[1..top]), begin0, end0, pos, len)
    ensures Stacked(lt, a[..], Pending(stack[..], top + 1, begin, end - 1), LEAST)
    ensures Near(lt, a[..], Pending(stack[..], top + 1, begin, end - 1), FAR)
    ensures Weight(Pending(stack[..], top + 1, begin, end - 1), UNIT) < Weight(old(Pending(stack[..], top, begin0, end0 - 1)), UNIT)
  {
    hide Near, Stacked, Weight, AfterCut;
    ghost var s, rest, cur := a[..], stack[1..top], StackNode(begin0, end0 - 1);
    var pivot, pivotLength := Partition(a, begin0, end0, lt, blockSize, equal);
    PushRoom(lt, s, rest, cur, stack.Length);
    CutStep(lt, s, a[..], rest, begin0, end0, pivot, pivotLength);
    begin, end := Push(stack, top, begin0, end0, pivot, pivotLength);
    pos, len := pivot, pivotLength;
    PermutedWiden(s, a[..], begin0, end0, 0, a.Length);
  }

  /** Notes the depth of the stacked part, and counts. */
  method CutDeeper<T(!new)>(a: array<T>, lt: (T, T) -> bool, blockSize: int, equal: bool, stack: array<StackNode>, depthStack: array<int>,
                            top: int, depth: int, begin0: int, end0: int, ghost times0: seq<int>, ghost limit: int)
    returns (begin: int, end: int, ghost times: seq<int>)
    requires StrictWeak(lt) && 0 < blockSize && 0 < top <= stack.Length && IS_THRESH < end0 - begin0 && depth < limit
    requires 0 <= begin0 && end0 <= a.Length && a.Length <= IS_THRESH * Pow2(stack.Length - 1)
    requires (stack as object) != a && (depthStack as object) != a && (depthStack as object) != stack && depthStack.Length == stack.Length
    requires Stacked(lt, a[..], Pending(stack[..], top, begin0, end0 - 1), LEAST)
    requires Near(lt, a[..], Pending(stack[..], top, begin0, end0 - 1), FAR)
    requires Deep(times0, Pending(stack[..], top, begin0, end0 - 1), Depths(depthStack[..], top, depth), limit)
    modifies a, stack, depthStack
    ensures top < stack.Length && Permuted(old(a[..]), a[..], 0, a.Length)
    ensures Stacked(lt, a[..], Pending(stack[..], top + 1, begin, end - 1), LEAST)
    ensures Near(lt, a[..], Pending(stack[..], top + 1, begin, end - 1), FAR)
    ensures Weight(Pending(stack[..], top + 1, begin, end - 1), UNIT) < Weight(old(Pending(stack[..], top, begin0, end0 - 1)), UNIT)
    ensures |times| == |times0| && Deep(times, Pending(stack[..], top + 1, begin, end - 1), Depths(depthStack[..], top + 1, depth + 1), limit)
  {
    hide Near, Stacked, Weight, AfterCut, Deep, Depths, Again, Pending, StrictWeak, Permuted;
    ghost var s, rest, depths := a[..], stack[1..top], depthStack[1..top];
    ghost var pos, len;
    PendingTop(stack[..], top, begin0, end0 - 1);
    DepthsTop(depthStack[..], top, depth);
    begin, end, pos, len := CutCurrent(a, lt, blockSize, equal, stack, top, begin0, end0);
    DeepCut(lt, s, times0, rest, depths, begin0, end0, pos, len, depth, limit);
    times := Again(times0, begin0, end0);
    depthStack[top] := depth + 1;
    DepthsPushed(depthStack[..], top + 1, depth + 1, depths);
  }

  /** The other branch: insertion sort, or the library's partial sort when the depth is used up. */
  method SortCurrent<T(!new)>(a: array<T>, lt: (T, T) -> bool, ghost rest: seq<StackNode>, begin: int, end: int)
    requires StrictWeak(lt) && 0 <= begin <= end <= a.Length
    requires Stacked(lt, a[..], rest + [StackNode(begin, end - 1)], LEAST) && Near(lt, a[..], rest + [StackNode(begin, end - 1)], FAR)
    modifies a
    ensures Permuted(old(a[..]), a[..], 0, a.Length)
    ensures Stacked(lt, a[..], rest, LEAST) && Near(lt, a[..], rest, FAR)
    ensures Weight(rest, UNIT) < Weight(rest + [StackNode(begin, end - 1)], UNIT)
  {
    hide Near, Stacked, Weight;
    ghost var s, cur := a[..], StackNode(begin, end - 1);
    InsertionSort(a, begin, end, lt);
    SortStep(lt, s, a[..], rest, cur);
    WeightPush(rest, cur, UNIT);
    PermutedWiden(s, a[..], begin, end, 0, a.Length);
  }

  lemma Start<T(!new)>(lt: (T, T) -> bool, s: seq<T>)
    ensures Stacked(lt, s, [StackNode(0, |s| - 1)], LEAST) && Near(lt, s, [StackNode(0, |s| - 1)], FAR)
  {
    forall i, k | 0 <= i < k && i + FAR < k < |s|
      ensures Separated(lt, s, i, k) || exists r :: r in [StackNode(0, |s| - 1)] && Covers(r, i, k)
    {
      assert Covers(StackNode(0, |s| - 1), i, k);
    }
  }

  lemma CurrentRange<T(!new)>(lt: (T, T) -> bool, s: seq<T>, rest: seq<StackNode>, cur: StackNode)
    requires Stacked(lt, s, rest + [cur], LEAST)
    ensures 0 <= cur.lo <= cur.hi + 1 <= |s|
    ensures 0 <= Weight(rest + [cur], UNIT) && 0 < 2 * (cur.hi - cur.lo) + UNIT
  {
    assert (rest + [cur])[|rest|] == cur;
    WeightNatural(lt, s, rest + [cur], LEAST, UNIT);
  }

  /** Stacks the longer part and continues with the other one. */
  method Push(stack: array<StackNode>, top: int, begin0: int, end0: int, pivot: int, pivotLength: int)
    returns (begin: int, end: int)
    requires 0 < top < stack.Length
    modifies stack
    ensures Pending(stack[..], top + 1, begin, end - 1) == AfterCut(old(stack[1..top]), begin0, end0, pivot, pivotLength)
    ensures stack[0] == old(stack[0])
  {
    begin, end := begin0, end0;
    if pivot - begin > end - pivot {
      stack[top] := StackNode(begin, pivot - 1);
      begin := pivot + pivotLength;
    } else {
      stack[top] := StackNode(pivot + pivotLength, end - 1);
      end := pivot;
    }
  }
}
