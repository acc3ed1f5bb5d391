/** The quicksort of stdQuicksort.cpp: an explicit stack, small ranges left to one insertion sort. */
module GlibcSort {
  import opened Orders
  import opened OpenRanges
  import opened Strides
  import opened SumTree

  const MAX_THRESH := 4

  // ----- partition -----

  method Swap<T(!new)>(a: array<T>, i: int, k: int, ghost lo: int, ghost hi: int)
    requires 0 <= lo <= i < hi <= a.Length && lo <= k < hi
    modifies a
    ensures Permuted(old(a[..]), a[..], lo, hi) && a[i] == old(a[k]) && a[k] == old(a[i])
    ensures forall x :: 0 <= x < a.Length && x != i && x != k ==> a[x] == old(a[x])
  {
    SwapPermutes(a[..], a[..][i := a[k]][k := a[i]], i, k, lo, hi);
    a[i], a[k] := a[k], a[i];
  }

  /** Sorts the first, middle and last cell among themselves. */
  method MedianOfThree<T(!new)>(a: array<T>, lo: int, mid: int, hi: int, lt: (T, T) -> bool)
    requires StrictWeak(lt) && 0 <= lo < mid < hi < a.Length
    modifies a
    ensures Permuted(old(a[..]), a[..], lo, hi + 1)
    ensures !lt(a[mid], a[lo]) && !lt(a[hi], a[mid])
    ensures IsMedian(lt, a[mid], old(a[lo]), old(a[mid]), old(a[hi]))
  {
    hide Permuted, IsMedian, StrictWeak;
    ghost var s, x0, y0, z0 := a[..], a[lo], a[mid], a[hi];
    PermutedSelf(s, lo, hi + 1);
    Asymmetric(lt, y0, x0);
    if lt(a[mid], a[lo]) {
      Swap(a, mid, lo, lo, hi + 1);
    }
    ghost var t, x, y, z := a[..], a[lo], a[mid], a[hi];
    if lt(a[hi], a[mid]) {
      Swap(a, mid, hi, lo, hi + 1);
      PermutedTrans(s, t, a[..], lo, hi + 1);
      Asymmetric(lt, z, y);
      if lt(a[mid], a[lo]) {
        Asymmetric(lt, z, x);
        ghost var u := a[..];
        Swap(a, mid, lo, lo, hi + 1);
        PermutedTrans(s, u, a[..], lo, hi + 1);
      }
    }
    MiddleIsMedian(lt, x0, y0, z0, a[lo], a[mid], a[hi]);
  }

  /** Below left nothing exceeds the pivot in cell mid, above right nothing is less than it. */
  ghost predicate Walls<T(!new)>(lt: (T, T) -> bool, s: seq<T>, lo: int, left: int, mid: int, right: int, hi: int, p: T) {
    && 0 <= lo < left <= right + 1 <= hi < |s| && lo <= mid <= hi && s[mid] == p
    && NoneMore(lt, s, lo, left, p) && NoneLess(lt, s, right + 1, hi + 1, p)
  }

  lemma WallsStart<T(!new)>(lt: (T, T) -> bool, s: seq<T>, lo: int, mid: int, hi: int)
    requires 0 <= lo < mid < hi < |s| && !lt(s[mid], s[lo]) && !lt(s[hi], s[mid])
    ensures Walls(lt, s, lo, lo + 1, mid, hi - 1, hi, s[mid])
  {
  }

  lemma WallsMeet<T(!new)>(lt: (T, T) -> bool, s: seq<T>, lo: int, left: int, mid: int, right: int, hi: int, p: T)
    requires Walls(lt, s, lo, left, mid, right, hi, p) && left <= right && !lt(s[right], p) && !lt(p, s[left])
    ensures NoneMore(lt, s, lo, left + 1, p) && NoneLess(lt, s, right, hi + 1, p)
  {
  }

  /** Both walls have passed equally many cells that were to be exchanged. As every cell counts on one
      side at least, this says where they stop. */
  ghost predicate Balanced<T(!new)>(lt: (T, T) -> bool, s: seq<T>, lo: int, left: int, right: int, hi: int, p: T) {
    && 0 <= lo < left <= hi <= |s| && lo <= right < hi
    && Duplicates(lt, s, lo + 1, left, p, false) == Duplicates(lt, s, right + 1, hi, p, true)
  }

  lemma BalancedStart<T(!new)>(lt: (T, T) -> bool, s: seq<T>, lo: int, hi: int, p: T)
    requires 0 <= lo < hi - 1 < |s|
    ensures Balanced(lt, s, lo, lo + 1, hi - 1, hi, p)
  {
    DuplicatesNone(lt, s, lo + 1, p, false);
    DuplicatesNone(lt, s, hi, p, true);
  }

  lemma BalancedPassed<T(!new)>(lt: (T, T) -> bool, s: seq<T>, lo: int, left0: int, left: int, right: int, right0: int, hi: int, p: T)
    requires Balanced(lt, s, lo, left0, right0, hi, p) && left0 <= left <= hi && lo <= right <= right0
    requires forall x :: left0 <= x < left ==> lt(s[x], p)
    requires forall x :: right < x <= right0 ==> lt(p, s[x])
    ensures Balanced(lt, s, lo, left, right, hi, p)
  {
    DuplicatesSplit(lt, s, lo + 1, left0, left, p, false);
    DuplicatesPassed(lt, s, left0, left, p, false);
    DuplicatesSplit(lt, s, right + 1, right0 + 1, hi, p, true);
    DuplicatesPassed(lt, s, right + 1, right0 + 1, p, true);
  }

  lemma BalancedPair<T(!new)>(lt: (T, T) -> bool, s: seq<T>, lo: int, left: int, right: int, hi: int, p: T)
    requires Balanced(lt, s, lo, left, right, hi, p) && left <= right && !lt(s[left], p) && !lt(p, s[right])
    ensures Balanced(lt, s, lo, left + 1, right - 1, hi, p)
  {
    DuplicatesNext(lt, s, lo + 1, left, p, false);
    DuplicatesBefore(lt, s, right, hi, p, true);
  }

  /** Collapses the walls around the pivot in cell mid, which moves along when it is swapped. */
  method Collapse<T(!new)>(a: array<T>, lo: int, mid0: int, hi: int, lt: (T, T) -> bool)
    returns (left: int, right: int, ghost p: T)
    requires StrictWeak(lt) && 0 <= lo < mid0 < hi < a.Length
    requires !lt(a[mid0], a[lo]) && !lt(a[hi], a[mid0])
    modifies a
    ensures Permuted(old(a[..]), a[..], lo, hi + 1)
    ensures lo <= right < left <= hi && left <= right + 2 && p == old(a[mid0])
    ensures NoneMore(lt, a[..], lo, left, p) && NoneLess(lt, a[..], right + 1, hi + 1, p)
    ensures Balanced(lt, old(a[..]), lo, left, right, hi, p)
  {
    hide Permuted, Balanced, Duplicates, StrictWeak, NoneMore, NoneLess;
    ghost var r := a[..];
    var mid := mid0;
    p := a[mid];
    left, right := lo + 1, hi - 1;
    PermutedSelf(a[..], lo, hi + 1);
    WallsStart(lt, r, lo, mid, hi);
    BalancedStart(lt, r, lo, hi, p);
    while true
      invariant Permuted(old(a[..]), a[..], lo, hi + 1)
      invariant Walls(lt, a[..], lo, left, mid, right, hi, p)
      invariant Balanced(lt, r, lo, left, right, hi, p) && forall x :: left <= x <= right ==> a[x] == r[x]
      decreases right - left
    {
      ghost var s, left0, right0 := a[..], left, right;
      left, right := Scan(a, lo, mid, hi, lt, left, right);
      BalancedPassed(lt, r, lo, left0, left, right, right0, hi, p);
      if left <= right { BalancedPair(lt, r, lo, left, right, hi, p); }
      if left < right {
        mid := SwapWalls(a, lo, left, mid, right, hi, lt);
        PermutedTrans(old(a[..]), s, a[..], lo, hi + 1);
        left, right := left + 1, right - 1;
      } else if left == right {
        WallsMeet(lt, a[..], lo, left, mid, right, hi, p);
        left, right := left + 1, right - 1;
        break;
      }
      if left > right { break; }
    }
  }

  /** Exchanges the two cells at which the scans stopped; the pivot may be one of them. */
  method SwapWalls<T(!new)>(a: array<T>, lo: int, left: int, mid0: int, right: int, hi: int, lt: (T, T) -> bool) returns (mid: int)
    requires 0 <= mid0 < a.Length && Walls(lt, a[..], lo, left, mid0, right, hi, a[mid0]) && left < right
    requires !lt(a[left], a[mid0]) && !lt(a[mid0], a[right])
    modifies a
    ensures Permuted(old(a[..]), a[..], lo, hi + 1)
    ensures Walls(lt, a[..], lo, left + 1, mid, right - 1, hi, old(a[mid0]))
    ensures forall x :: left < x < right ==> a[x] == old(a[x])
  {
    mid := mid0;
    SwapPermutes(a[..], a[..][left := a[right]][right := a[left]], left, right, lo, hi + 1);
    a[left], a[right] := a[right], a[left];
    if mid == left {
      mid := right;
    } else if mid == right {
      mid := left;
    }
  }

  /** Both inner scans: each wall stops at the latest where the other side is already settled. */
  method Scan<T(!new)>(a: array<T>, lo: int, mid: int, hi: int, lt: (T, T) -> bool, left0: int, right0: int)
    returns (left: int, right: int)
    requires StrictWeak(lt) && 0 <= lo <= mid <= hi < a.Length && lo < left0 <= right0 + 1 <= hi
    requires NoneMore(lt, a[..], lo, left0, a[mid]) && NoneLess(lt, a[..], right0 + 1, hi + 1, a[mid])
    ensures left0 <= left <= right + 1 && right <= right0
    ensures left <= right0 + 1
    ensures forall x :: left0 <= x < left ==> lt(a[x], a[mid])
    ensures forall x :: right < x <= right0 ==> lt(a[mid], a[x])
    ensures NoneMore(lt, a[..], lo, left, a[mid]) && !lt(a[left], a[mid])
    ensures NoneLess(lt, a[..], right + 1, hi + 1, a[mid]) && !lt(a[mid], a[right])
  {
    left, right := left0, right0;
    assert !lt(a[..][right0 + 1], a[mid]);
    while lt(a[left], a[mid])
      invariant left0 <= left <= right0 + 1
      invariant NoneMore(lt, a[..], lo, left, a[mid]) && forall x :: left0 <= x < left ==> lt(a[x], a[mid])
      decreases right0 + 1 - left
    {
      Asymmetric(lt, a[left], a[mid]);
      left := left + 1;
    }
    assert !lt(a[mid], a[..][left - 1]);
    while lt(a[mid], a[right])
      invariant left - 1 <= right <= right0
      invariant NoneLess(lt, a[..], right + 1, hi + 1, a[mid]) && forall x :: right < x <= right0 ==> lt(a[mid], a[x])
      decreases right
    {
      Asymmetric(lt, a[mid], a[right]);
      right := right - 1;
    }
  }

  // ----- the first phase -----

  /** Partitions the current range and says where the walls ended. */
  method PartitionRange<T(!new)>(a: array<T>, lo: int, hi: int, lt: (T, T) -> bool, ghost rest: seq<StackNode>)
    returns (left: int, right: int)
    requires StrictWeak(lt)
    requires Stacked(lt, a[..], rest + [StackNode(lo, hi)], MAX_THRESH) && Near(lt, a[..], rest + [StackNode(lo, hi)], MAX_THRESH)
    modifies a
    ensures 0 <= lo <= hi < a.Length && Permuted(old(a[..]), a[..], lo, hi + 1)
    ensures lo <= right < left <= hi && left <= right + 2
    ensures Stacked(lt, a[..], rest + [StackNode(lo, hi)], MAX_THRESH)
    ensures Cut(lt, a[..], left) && Cut(lt, a[..], right + 1)
  {
    ghost var s, cur := a[..], StackNode(lo, hi);
    assert (rest + [cur])[|rest|] == cur;
    assert Open(lt, s, cur, MAX_THRESH);
    var mid := lo + (hi - lo) / 2;
    MedianOfThree(a, lo, mid, hi, lt);
    ghost var p;
    left, right, p := Collapse(a, lo, mid, hi, lt);
    StackedKept(lt, s, a[..], rest, cur, MAX_THRESH);
    assert (rest + [cur])[|rest|] == cur;
    assert Open(lt, a[..], cur, MAX_THRESH);
    NewCut(lt, a[..], lo, hi, left, p);
    NewCut(lt, a[..], lo, hi, right + 1, p);
  }

  /** A range worth stacking leaves room on the stack. */
  lemma StackRoom<T(!new)>(lt: (T, T) -> bool, s: seq<T>, pending: seq<StackNode>, width: nat)
    requires Stacked(lt, s, pending, MAX_THRESH) && |s| < Pow2(width) && 0 < |pending|
    ensures |pending| <= width
  {
    var j := |pending| - 1;
    assert Open(lt, s, pending[j], MAX_THRESH) && Fits(|s|, pending[j], j);
    MulMonotone(Pow2(j), 1, pending[j].hi - pending[j].lo + 1);
    if width <= j {
      Pow2Monotone(width, j);
    }
  }

  /** What is still pending after a step, in the order in which it will be taken up from the end. */
  ghost function Kept(rest: seq<StackNode>, l: StackNode, r: StackNode): seq<StackNode> {
    if l.hi - l.lo <= MAX_THRESH then
      if r.hi - r.lo <= MAX_THRESH then rest else rest + [r]
    else if r.hi - r.lo <= MAX_THRESH then rest + [l]
    else if l.hi - l.lo > r.hi - r.lo then rest + [l] + [r]
    else rest + [r] + [l]
  }

  lemma KeptStep<T(!new)>(lt: (T, T) -> bool, s: seq<T>, t: seq<T>, rest: seq<StackNode>, cur: StackNode, left: int, right: int)
    requires Near(lt, s, rest + [cur], MAX_THRESH) && Stacked(lt, t, rest + [cur], MAX_THRESH) && Permuted(s, t, cur.lo, cur.hi + 1)
    requires cur.lo <= right < left <= cur.hi && left <= right + 2 && Cut(lt, t, left) && Cut(lt, t, right + 1)
    ensures var next := Kept(rest, StackNode(cur.lo, right), StackNode(left, cur.hi));
            Near(lt, t, next, MAX_THRESH) && Stacked(lt, t, next, MAX_THRESH) && Weight(next, 1) < Weight(rest + [cur], 1)
  {
    var l, r := StackNode(cur.lo, right), StackNode(left, cur.hi);
    assert (rest + [cur])[|rest|] == cur;
    assert Open(lt, t, cur, MAX_THRESH);
    NearStep(lt, s, t, rest, cur, left, right, Kept(rest, l, r), MAX_THRESH, MAX_THRESH);
    if l.hi - l.lo > MAX_THRESH { OpenPart(lt, t, l, MAX_THRESH); }
    if r.hi - r.lo > MAX_THRESH { OpenPart(lt, t, r, MAX_THRESH); }
    WeightPush(rest, cur, 1);
    WeightPush(rest, l, 1);
    WeightPush(rest, r, 1);
    WeightPush(rest + [l], r, 1);
    WeightPush(rest + [r], l, 1);
    hide Near, Stacked, Open, Cut, Weight;
    if l.hi - l.lo <= MAX_THRESH {
      if r.hi - r.lo <= MAX_THRESH {
        StackedDrop(lt, t, rest, cur, MAX_THRESH);
      } else {
        StackedShrink(lt, t, rest, cur, r, MAX_THRESH);
      }
    } else if r.hi - r.lo <= MAX_THRESH {
      StackedShrink(lt, t, rest, cur, l, MAX_THRESH);
    } else if l.hi - l.lo > r.hi - r.lo {
      StackedSplit(lt, t, rest, cur, l, r, MAX_THRESH);
    } else {
      StackedSplit(lt, t, rest, cur, r, l, MAX_THRESH);
    }
  }

  /** The stack phase, on a stack of `width` nodes: it never overflows for fewer than 2^width
      elements and leaves consecutive segments of at most MAX_THRESH + 1 cells, ordered between each other. */
  method SortRanges<T(!new)>(a: array<T>, lt: (T, T) -> bool, width: nat)
    requires StrictWeak(lt) && MAX_THRESH < a.Length < Pow2(width)
    modifies a
    ensures Permuted(old(a[..]), a[..], 0, a.Length) && Near(lt, a[..], [], MAX_THRESH)
    ensures exists bounds :: Segmented(lt, a[..], bounds, MAX_THRESH) && bounds[0] == 0
  {
    hide Near, Stacked, Weight, Kept;
    var lo, hi := 0, a.Length - 1;
    var stack := new StackNode[width](_ => StackNode(-1, -1));
    var top := 0;
    Begin(lt, a[..], width);
    stack[top] := StackNode(-1, -1);
    top := top + 1;
    assert Pending(stack[..], top, lo, hi) == [StackNode(lo, hi)];
    while top != 0
      invariant 0 <= top <= width == stack.Length
      invariant Permuted(old(a[..]), a[..], 0, a.Length)
      invariant Stacked(lt, a[..], Pending(stack[..], top, lo, hi), MAX_THRESH) && Near(lt, a[..], Pending(stack[..], top, lo, hi), MAX_THRESH)
      decreases Weight(Pending(stack[..], top, lo, hi), 1)
    {
      ghost var s, rest, cur := a[..], stack[1..top], StackNode(lo, hi);
      StackedWeight(lt, s, rest + [cur]);
      var left, right := PartitionRange(a, lo, hi, lt, rest);
      KeptStep(lt, s, a[..], rest, cur, left, right);
      ghost var next := Kept(rest, StackNode(lo, right), StackNode(left, hi));
      if 0 < |next| {
        StackRoom(lt, a[..], next, width);
      }
      top, lo, hi := NextRange(stack, top, lo, hi, left, right);
      assert Pending(stack[..], top, lo, hi) == next;
    }
    assert Cut(lt, a[..], 0);
    ghost var bounds := CutIntoSegments(lt, a[..], MAX_THRESH, 0);
  }

  /** Takes up the smaller part, or pops a range when both are small. */
  method NextRange(stack: array<StackNode>, top0: int, lo0: int, hi0: int, left: int, right: int)
    returns (top: int, lo: int, hi: int)
    requires 0 < top0 <= stack.Length
    requires |Kept(stack[1..top0], StackNode(lo0, right), StackNode(left, hi0))| <= stack.Length
    modifies stack
    ensures 0 <= top <= stack.Length
    ensures Pending(stack[..], top, lo, hi) == Kept(old(stack[1..top0]), StackNode(lo0, right), StackNode(left, hi0))
  {
    top, lo, hi := top0, lo0, hi0;
    if right - lo <= MAX_THRESH {
      if hi - left <= MAX_THRESH {
        top := top - 1;
        lo, hi := stack[top].lo, stack[top].hi;
      } else {
        lo := left;
      }
    } else if hi - left <= MAX_THRESH {
      hi := right;
    } else if right - lo > hi - left {
      stack[top] := StackNode(lo, right);
      top := top + 1;
      lo := left;
    } else {
      stack[top] := StackNode(left, hi);
      top := top + 1;
      hi := right;
    }
  }

  lemma Begin<T(!new)>(lt: (T, T) -> bool, s: seq<T>, width: nat)
    requires MAX_THRESH < |s| < Pow2(width)
    ensures 0 < width
    ensures Stacked(lt, s, [StackNode(0, |s| - 1)], MAX_THRESH) && Near(lt, s, [StackNode(0, |s| - 1)], MAX_THRESH)
  {
    forall i, k | 0 <= i && i + MAX_THRESH < k < |s|
      ensures Separated(lt, s, i, k) || exists r :: r in [StackNode(0, |s| - 1)] && Covers(r, i, k)
    {
      assert Covers(StackNode(0, |s| - 1), i, k);
    }
  }

  lemma StackedWeight<T(!new)>(lt: (T, T) -> bool, s: seq<T>, pending: seq<StackNode>)
    requires Stacked(lt, s, pending, MAX_THRESH)
    ensures Weight(pending, 1) >= 0
  {
    WeightNatural(lt, s, pending, MAX_THRESH, 1);
  }

  // ----- the final insertion sort -----

  ghost predicate LeastFirst<T(!new)>(lt: (T, T) -> bool, s: seq<T>) {
    forall k :: 0 < k < |s| ==> !lt(s[k], s[0])
  }

  /** The smallest of the first cells is the smallest of all; it goes to the front as a sentinel. */
  method PlaceLeast<T(!new)>(a: array<T>, lt: (T, T) -> bool)
    requires StrictWeak(lt) && 0 < a.Length && FarOrdered(lt, a[..], MAX_THRESH)
    modifies a
    ensures Permuted(old(a[..]), a[..], 0, a.Length)
    ensures FarOrdered(lt, a[..], MAX_THRESH) && LeastFirst(lt, a[..])
  {
    var end := a.Length - 1;
    var thresh := if end < MAX_THRESH then end else MAX_THRESH;
    var tmp, run := 0, 1;
    Irreflexive(lt, a[0]);
    while run <= thresh
      invariant 1 <= run <= thresh + 1 && 0 <= tmp < run && a[..] == old(a[..])
      invariant NoneLess(lt, a[..], 0, run, a[tmp])
    {
      ghost var before := tmp;
      if lt(a[run], a[tmp]) {
        tmp := run;
      }
      LeastKept(lt, a[..], run, before, tmp);
      run := run + 1;
    }
    LeastOverall(lt, a[..], thresh, tmp);
    PlaceFirst(a, tmp, lt);
  }

  method PlaceFirst<T(!new)>(a: array<T>, tmp: int, lt: (T, T) -> bool)
    requires StrictWeak(lt) && 0 <= tmp < a.Length && tmp <= MAX_THRESH && FarOrdered(lt, a[..], MAX_THRESH)
    requires NoneLess(lt, a[..], 0, a.Length, a[tmp])
    modifies a
    ensures Permuted(old(a[..]), a[..], 0, a.Length)
    ensures FarOrdered(lt, a[..], MAX_THRESH) && LeastFirst(lt, a[..])
  {
    LeastSwap(lt, a[..], a[..][tmp := a[0]][0 := a[tmp]], tmp);
    if tmp != 0 {
      a[tmp], a[0] := a[0], a[tmp];
    } else {
      assert a[..] == a[..][tmp := a[0]][0 := a[tmp]];
    }
  }

  lemma LeastSwap<T(!new)>(lt: (T, T) -> bool, s: seq<T>, t: seq<T>, tmp: int)
    requires StrictWeak(lt) && FarOrdered(lt, s, MAX_THRESH) && 0 <= tmp < |s| && tmp <= MAX_THRESH
    requires NoneLess(lt, s, 0, |s|, s[tmp])
    requires t == s[tmp := s[0]][0 := s[tmp]]
    ensures Permuted(s, t, 0, |s|) && FarOrdered(lt, t, MAX_THRESH) && LeastFirst(lt, t)
  {
    SwapPermutes(s, t, tmp, 0, 0, |s|);
    forall i, k | 0 <= i && i + MAX_THRESH < k < |t|
      ensures !lt(t[k], t[i])
    {
      assert t[k] == s[k] && !lt(s[k], s[0]);
    }
  }

  lemma LeastKept<T(!new)>(lt: (T, T) -> bool, s: seq<T>, run: int, before: int, tmp: int)
    requires StrictWeak(lt) && 0 <= before < run < |s| && NoneLess(lt, s, 0, run, s[before])
    requires tmp == if lt(s[run], s[before]) then run else before
    ensures NoneLess(lt, s, 0, run + 1, s[tmp])
  {
    Irreflexive(lt, s[run]);
    forall k | 0 <= k < run && lt(s[run], s[before])
      ensures !lt(s[k], s[run])
    {
      LessTrans(lt, s[run], s[before], s[k]);
    }
  }

  lemma LeastOverall<T(!new)>(lt: (T, T) -> bool, s: seq<T>, thresh: int, tmp: int)
    requires StrictWeak(lt) && FarOrdered(lt, s, MAX_THRESH) && 0 <= tmp <= thresh < |s|
    requires thresh == MAX_THRESH || thresh == |s| - 1
    requires NoneLess(lt, s, 0, thresh + 1, s[tmp])
    ensures NoneLess(lt, s, 0, |s|, s[tmp])
  {
    forall k | 0 <= k < |s|
      ensures !lt(s[k], s[tmp])
    {
      if thresh < k {
        NotLessTrans(lt, s[k], s[0], s[tmp]);
      }
    }
  }

  /** How many of the first n cells exceed x. */
  function CountMore<T(!new)>(lt: (T, T) -> bool, s: seq<T>, n: int, x: T): nat
    requires n <= |s|
  {
    CountLess((y, z) => lt(z, y), s, 0, n, x)
  }

  /** In a nearly sorted array at most a threshold of cells before run exceed cell run. */
  lemma {:induction false} FewMore<T(!new)>(lt: (T, T) -> bool, s: seq<T>, run: int, n: int)
    requires FarOrdered(lt, s, MAX_THRESH) && 0 <= n <= run < |s|
    ensures CountMore(lt, s, n, s[run]) <= if n + MAX_THRESH <= run then 0 else n + MAX_THRESH - run
    decreases n
  {
    if n > 0 {
      FewMore(lt, s, run, n - 1);
    }
  }

  /** A sorted prefix that exceeds x exactly from tmp on has run - tmp cells exceeding x. */
  lemma MoreIsSuffix<T(!new)>(lt: (T, T) -> bool, s: seq<T>, tmp: int, run: int, x: T)
    requires 0 <= tmp <= run <= |s|
    requires NoneMore(lt, s, 0, tmp, x) && forall k :: tmp <= k < run ==> lt(x, s[k])
    ensures CountMore(lt, s, run, x) == run - tmp
    decreases run
  {
    if 0 < run {
      MoreIsSuffix(lt, s, if tmp < run then tmp else run - 1, run - 1, x);
    }
  }

  // ----- rotating an element into place, byte column by byte column -----

  /** What cell x holds after the elements from tmp to run, each of `size` bytes, rotate by one. */
  function RotatedAt<T>(s: seq<T>, size: int, tmp: int, run: int, x: int): T
    requires 0 < size && 0 <= tmp <= run && run + size <= |s| && 0 <= x < |s|
  {
    if x < tmp || run + size <= x then s[x]
    else if x < tmp + size then s[x - tmp + run]
    else s[x - size]
  }

  /** The byte column of x, counted from tmp. */
  function Column(size: int, tmp: int, x: int): (c: int)
    requires 0 < size
    ensures 0 <= c < size
  {
    Col(size, x - tmp)
  }

  lemma ColumnOf(size: int, tmp: int, d: int, c: int)
    requires 0 <= c < size && 0 <= d
    ensures Column(size, tmp, tmp + Pos(size, c, d)) == c
  {
    PosDivMod(size, c, d);
  }

  /** Another byte of the same column is at least an element away. */
  lemma ColumnGap(size: int, tmp: int, x: int, y: int)
    requires 0 < size && Column(size, tmp, x) == Column(size, tmp, y) && x < y
    ensures x + size <= y
  {
    var p, q := (x - tmp) / size, (y - tmp) / size;
    assert y - x == (q - p) * size;
    MulAtLeast(q - p, size);
  }

  /** Bytes of the columns after c are in place, and of column c those above hi. */
  ghost predicate Rotating<T(!new)>(s: seq<T>, t: seq<T>, size: int, tmp: int, run: int, c: int, hi: int) {
    && 0 < size && 0 <= tmp <= run && run + size <= |s| == |t|
    && (forall x :: 0 <= x < |s| ==>
          t[x] == if c < Column(size, tmp, x) || (c == Column(size, tmp, x) && hi < x) || x < tmp || run + size <= x
                  then RotatedAt(s, size, tmp, run, x) else s[x])
  }

  lemma ColumnStep<T(!new)>(s: seq<T>, t: seq<T>, size: int, tmp: int, run: int, c: int, hi: int)
    requires Rotating(s, t, size, tmp, run, c, hi) && Column(size, tmp, hi) == c && tmp <= hi - size && hi < run + size
    ensures Rotating(s, t[hi := t[hi - size]], size, tmp, run, c, hi - size)
  {
    var u := t[hi := t[hi - size]];
    forall x | 0 <= x < |s|
      ensures u[x] == if c < Column(size, tmp, x) || (c == Column(size, tmp, x) && hi - size < x) || x < tmp || run + size <= x
                      then RotatedAt(s, size, tmp, run, x) else s[x]
    {
      if c == Column(size, tmp, x) && hi - size < x < hi {
        ColumnGap(size, tmp, x, hi);
      }
      if c == Column(size, tmp, x) && x < hi {
        ColumnGap(size, tmp, x, hi);
      }
      SameColumn(size, tmp, hi);
    }
  }

  lemma SameColumn(size: int, tmp: int, x: int)
    requires 0 < size
    ensures Column(size, tmp, x - size) == Column(size, tmp, x)
  {
    var p, q := (x - size - tmp) / size, (x - tmp) / size;
    assert (q - p - 1) * size == (x - size - tmp) % size - (x - tmp) % size;
    MulAtLeast(q - p - 1, size);
  }

  lemma ColumnEnd<T(!new)>(s: seq<T>, t: seq<T>, size: int, tmp: int, run: int, c: int)
    requires Rotating(s, t, size, tmp, run, c, tmp + c) && 0 <= c < size
    ensures Rotating(s, t[tmp + c := s[run + c]], size, tmp, run, c - 1, |s|)
  {
    ColumnOf(size, tmp, 0, c);
    forall x | tmp <= x < |s| && Column(size, tmp, x) == c && x < tmp + c
      ensures false
    {
      ColumnGap(size, tmp, x, tmp + c);
    }
  }

  lemma ColumnTop<T(!new)>(s: seq<T>, t: seq<T>, size: int, tmp: int, run: int, d: nat, trav: int)
    requires run <= trav < run + size && run == tmp + d * size
    requires Rotating(s, t, size, tmp, run, trav - run, |s|)
    ensures Rotating(s, t, size, tmp, run, trav - run, trav)
    ensures trav == tmp + Pos(size, trav - run, d)
  {
    ColumnOf(size, tmp, d, trav - run);
    forall x | trav < x < run + size && Column(size, tmp, x) == trav - run
      ensures false
    {
      ColumnGap(size, tmp, trav, x);
    }
  }

  /** One element down in a column; above the first element there is room for it. */
  lemma PosDown(size: int, c: int, j: nat)
    requires 0 <= c < size
    ensures j > 0 ==> Pos(size, c, j - 1) == Pos(size, c, j) - size && Pos(size, c, j) >= size
    ensures j == 0 ==> Pos(size, c, j) == c
  {
    MulAtLeast(j, size);
    assert (j - 1) * size == j * size - size;
  }

  /** One column: every byte takes the one an element before it, the first takes the held byte. */
  method RotateColumn<T(!new)>(b: array<T>, size: int, tmp: int, run: int, trav: int, ghost s: seq<T>, ghost d: nat)
    requires run == tmp + d * size && run <= trav < run + size
    requires Rotating(s, b[..], size, tmp, run, trav - run, |s|)
    requires b[trav] == s[trav]
    modifies b
    ensures Rotating(s, b[..], size, tmp, run, trav - run - 1, |s|)
  {
    hide Rotating, Column, Pos;
    ghost var col := trav - run;
    ColumnTop(s, b[..], size, tmp, run, d, trav);
    var c := b[trav];
    var hi, lo := trav, trav - size;
    ghost var j := d;
    PosDown(size, col, j);
    while lo >= tmp
      invariant 0 <= j <= d && hi == tmp + Pos(size, col, j) && lo == hi - size && hi <= trav
      invariant Rotating(s, b[..], size, tmp, run, col, hi)
      decreases lo - tmp
    {
      PosDown(size, col, j);
      ColumnOf(size, tmp, j, col);
      ColumnStep(s, b[..], size, tmp, run, col, hi);
      b[hi] := b[lo];
      hi := lo;
      lo := lo - size;
      j := j - 1;
    }
    PosDown(size, col, j);
    ColumnEnd(s, b[..], size, tmp, run, col);
    b[hi] := c;
  }

  /** Column by column from the last byte on, the loops rotate whole elements: the one at run goes
      to tmp and the others move up by one element. */
  method RotateColumns<T(!new)>(b: array<T>, size: int, tmp: int, run: int, ghost d: nat)
    requires 0 < size && 0 <= tmp && run == tmp + d * size && run + size <= b.Length
    modifies b
    ensures tmp <= run && forall x :: 0 <= x < b.Length ==> b[x] == RotatedAt(old(b[..]), size, tmp, run, x)
  {
    ghost var s := b[..];
    MulAtLeast(d, size);
    var trav := run + size;
    while trav > run
      invariant run <= trav <= run + size
      invariant Rotating(s, b[..], size, tmp, run, trav - run - 1, |s|)
    {
      trav := trav - 1;
      ColumnOf(size, tmp, d, trav - run);
      RotateColumn(b, size, tmp, run, trav, s, d);
    }
  }

  // ----- the whole sort -----

  /** The element at run moves to tmp, those between move up by one. */
  ghost predicate MovedDown<T(!new)>(s: seq<T>, t: seq<T>, tmp: int, run: int)
    requires 0 <= tmp <= run < |s|
  {
    |s| == |t| && forall x :: 0 <= x < |s| ==> t[x] == RotatedAt(s, 1, tmp, run, x)
  }

  lemma MoveDownPermutes<T(!new)>(s: seq<T>, t: seq<T>, tmp: int, run: int)
    requires 0 <= tmp <= run < |s| && MovedDown(s, t, tmp, run)
    ensures Permuted(s, t, tmp, run + 1)
  {
    var front, middle, last, back := s[..tmp], s[tmp..run], [s[run]], s[run + 1..];
    MovedDownIs(s, t, tmp, run);
    SourceParts(s, tmp, run);
    TurnedBag(front, middle, last, back);
  }

  lemma MovedDownIs<T(!new)>(s: seq<T>, t: seq<T>, tmp: int, run: int)
    requires 0 <= tmp <= run < |s| && MovedDown(s, t, tmp, run)
    ensures t == s[..tmp] + ([s[run]] + s[tmp..run]) + s[run + 1..]
  {
  }

  lemma SourceParts<T(!new)>(s: seq<T>, tmp: int, run: int)
    requires 0 <= tmp <= run < |s|
    ensures s == s[..tmp] + (s[tmp..run] + [s[run]]) + s[run + 1..]
  {
  }

  lemma TurnedBag<T(!new)>(front: seq<T>, middle: seq<T>, last: seq<T>, back: seq<T>)
    ensures multiset(front + (middle + last) + back) == multiset(front + (last + middle) + back)
  {
  }

  lemma MoveDownSorts<T(!new)>(lt: (T, T) -> bool, s: seq<T>, t: seq<T>, tmp: int, run: int)
    requires StrictWeak(lt) && 0 <= tmp <= run < |s| && MovedDown(s, t, tmp, run)
    requires Sorted(lt, s, 0, run) && NoneMore(lt, s, 0, tmp, s[run])
    requires forall k :: tmp <= k < run ==> lt(s[run], s[k])
    ensures Sorted(lt, t, 0, run + 1)
  {
    forall i, k | 0 <= i < k < run + 1
      ensures !lt(t[k], t[i])
    {
      if i == tmp {
        Asymmetric(lt, s[run], s[k - 1]);
      }
    }
  }

  lemma SentinelLeast<T(!new)>(lt: (T, T) -> bool, s: seq<T>, t: seq<T>, tmp: int, run: int)
    requires 1 <= tmp <= run < |s| && MovedDown(s, t, tmp, run) && LeastFirst(lt, s)
    ensures LeastFirst(lt, t)
  {
    assert t[0] == s[0];
  }

  /** So far the prefix is sorted and the rest is as phase one left it. */
  ghost predicate Inserting<T(!new)>(lt: (T, T) -> bool, s: seq<T>, t: seq<T>, run: int) {
    && 1 <= run <= |s| && Permuted(s, t, 0, run)
    && Sorted(lt, t, 0, run) && LeastFirst(lt, t)
  }

  /** The insertion point lies at most a threshold below. */
  lemma ShortMove<T(!new)>(lt: (T, T) -> bool, s: seq<T>, t: seq<T>, tmp: int, run: int)
    requires FarOrdered(lt, s, MAX_THRESH) && Inserting(lt, s, t, run) && 0 <= tmp <= run < |s|
    requires NoneMore(lt, t, 0, tmp, t[run]) && forall k :: tmp <= k < run ==> lt(t[run], t[k])
    ensures run - tmp <= MAX_THRESH
  {
    FewMore(lt, s, run, run);
    MoreIsSuffix(lt, t, tmp, run, t[run]);
    CountPermuted((y, z) => lt(z, y), s, t, 0, run, t[run]);
  }

  lemma Insertion<T(!new)>(lt: (T, T) -> bool, s: seq<T>, t: seq<T>, u: seq<T>, tmp: int, run: int)
    requires StrictWeak(lt) && Inserting(lt, s, t, run) && 1 <= tmp <= run < |s| && MovedDown(t, u, tmp, run)
    requires NoneMore(lt, t, 0, tmp, t[run]) && forall k :: tmp <= k < run ==> lt(t[run], t[k])
    ensures Inserting(lt, s, u, run + 1)
  {
    MoveDownPermutes(t, u, tmp, run);
    MoveDownSorts(lt, t, u, tmp, run);
    SentinelLeast(lt, t, u, tmp, run);
  }

  /** Inserts cell run: the scan is unguarded, the least element in front stops it. */
  method InsertNext<T(!new)>(a: array<T>, run: int, lt: (T, T) -> bool, ghost s: seq<T>) returns (tmp: int)
    requires StrictWeak(lt) && |s| == a.Length && 1 <= run < |s| && FarOrdered(lt, s, MAX_THRESH) && Inserting(lt, s, a[..], run)
    modifies a
    ensures Inserting(lt, s, a[..], run + 1)
    ensures 0 <= tmp <= run <= tmp + MAX_THRESH && a[tmp] == old(a[run])
  {
    ghost var t := a[..];
    tmp := run - 1;
    assert !lt(a[run], a[0]);
    while lt(a[run], a[tmp])
      invariant 0 <= tmp < run && a[..] == t
      invariant forall k :: tmp < k < run ==> lt(a[run], a[k])
      decreases tmp
    {
      tmp := tmp - 1;
    }
    SortedBelow(lt, t, tmp, run);
    tmp := tmp + 1;
    ShortMove(lt, s, t, tmp, run);
    if tmp != run {
      RotateColumns(a, 1, tmp, run, run - tmp);
    }
    Insertion(lt, s, t, a[..], tmp, run);
  }

  lemma SortedBelow<T(!new)>(lt: (T, T) -> bool, s: seq<T>, tmp: int, run: int)
    requires StrictWeak(lt) && 0 <= tmp < run < |s| && Sorted(lt, s, 0, run) && !lt(s[run], s[tmp])
    ensures NoneMore(lt, s, 0, tmp + 1, s[run])
  {
    forall k | 0 <= k < tmp + 1
      ensures !lt(s[run], s[k])
    {
      if k < tmp {
        NotLessTrans(lt, s[run], s[tmp], s[k]);
      }
    }
  }

  /** Sorts what the stack phase left. */
  method FinalInsertionSort<T(!new)>(a: array<T>, lt: (T, T) -> bool)
    requires StrictWeak(lt) && 0 < a.Length && FarOrdered(lt, a[..], MAX_THRESH)
    modifies a
    ensures Permuted(old(a[..]), a[..], 0, a.Length) && Sorted(lt, a[..], 0, a.Length)
  {
    hide FarOrdered;
    PlaceLeast(a, lt);
    ghost var s := a[..];
    // The least element in front already orders the first two cells.
    var run := 2;
    while run <= a.Length - 1
      invariant 2 <= run && Inserting(lt, s, a[..], if run <= a.Length then run else a.Length)
    {
      var _ := InsertNext(a, run, lt, s);
      run := run + 1;
    }
    PermutedTrans(old(a[..]), s, a[..], 0, a.Length);
  }

  /** _quicksort sorts any array of fewer than 2^width elements on a stack of width nodes. */
  method QuickSort<T(!new)>(a: array<T>, lt: (T, T) -> bool, width: nat)
    requires StrictWeak(lt) && a.Length < Pow2(width)
    modifies a
    ensures Permuted(old(a[..]), a[..], 0, a.Length) && Sorted(lt, a[..], 0, a.Length)
  {
    if a.Length == 0 { return; }
    if a.Length > MAX_THRESH {
      SortRanges(a, lt, width);
      NearOrdered(lt, a[..], MAX_THRESH);
    }
    ghost var s := a[..];
    FinalInsertionSort(a, lt);
    PermutedTrans(old(a[..]), s, a[..], 0, a.Length);
  }
}
