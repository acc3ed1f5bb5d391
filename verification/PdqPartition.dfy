/** The right and left partitions of pdqsort.h. */
module PdqPartition {
  import opened Orders

  /** What both right partitions promise: the pivot of s lands at pos of t, what is less before it. */
  ghost predicate PartitionedRight<T(!new)>(lt: (T, T) -> bool, s: seq<T>, t: seq<T>, begin: int, end: int,
                                            pos: int, already: bool) {
    && Permuted(s, t, begin, end) && begin <= pos < end
    && t[pos] == s[begin]
    && AllLess(lt, t, begin, pos, s[begin]) && NoneLess(lt, t, pos + 1, end, s[begin])
    && (already <==> SplitAlready(lt, s, begin, end))
  }

  /** Behind its pivot the range already has all smaller elements first. */
  ghost predicate SplitAlready<T(!new)>(lt: (T, T) -> bool, s: seq<T>, begin: int, end: int)
    requires 0 <= begin < end <= |s|
  {
    forall i, k :: begin < i < k < end && lt(s[k], s[begin]) ==> lt(s[i], s[begin])
  }

  /** The pivot ends where the count of smaller elements puts it, so any two right partitions of
      the same range return the same pair. */
  lemma RightDetermined<T(!new)>(lt: (T, T) -> bool, s: seq<T>, t: seq<T>, begin: int, end: int,
                                 pos: int, already: bool, u: seq<T>, pos': int, already': bool)
    requires PartitionedRight(lt, s, t, begin, end, pos, already)
    requires PartitionedRight(lt, s, u, begin, end, pos', already')
    requires !lt(s[begin], s[begin])
    ensures pos == begin + CountLess(lt, s, begin, end, s[begin])
    ensures pos == pos' && already == already'
  {
    CountPermuted(lt, s, t, begin, end, s[begin]);
    CountSplit(lt, t, begin, pos, end, s[begin]);
    CountPermuted(lt, s, u, begin, end, s[begin]);
    CountSplit(lt, u, begin, pos', end, s[begin]);
  }

  /** After a right partition the pivot may be put between its two sorted sides. */
  lemma RightSides<T(!new)>(lt: (T, T) -> bool, s: seq<T>, t: seq<T>, begin: int, end: int, pos: int, already: bool)
    requires StrictWeak(lt) && PartitionedRight(lt, s, t, begin, end, pos, already)
    ensures NoneMore(lt, t, begin, pos, t[pos])
    ensures NoneLess(lt, t, pos + 1, end, t[pos])
  {
    forall k | begin <= k < pos
      ensures !lt(t[pos], t[k])
    {
      Asymmetric(lt, t[pos], t[k]);
    }
  }

  /** The two searches that open both right partitions: the first element not less than the pivot,
      which the witness m bounds, and the last element less than it. */
  method FindPair<T(!new)>(a: array<T>, begin: int, end: int, lt: (T, T) -> bool, ghost m: int)
    returns (first: int, last: int)
    requires 0 <= begin < m < end <= a.Length && !lt(a[m], a[begin])
    ensures begin < first < end && begin <= last < end && first - 1 <= last
    ensures AllLess(lt, a[..], begin + 1, first, a[begin]) && !lt(a[first], a[begin])
    ensures NoneLess(lt, a[..], last + 1, end, a[begin])
    ensures first < last ==> lt(a[last], a[begin])
    ensures first >= last ==> NoneLess(lt, a[..], first, end, a[begin])
    ensures first >= last <==> SplitAlready(lt, a[..], begin, end)
  {
    var pivot := a[begin];
    first := begin + 1;
    while lt(a[first], pivot)
      invariant begin < first <= m
      invariant AllLess(lt, a[..], begin + 1, first, pivot)
      decreases m - first
    {
      first := first + 1;
    }
    last := end;
    if first - 1 == begin {
      var less := false;
      while first < last && !less
        invariant first <= last <= end
        invariant NoneLess(lt, a[..], last + (if less then 1 else 0), end, pivot)
        invariant less ==> last < end && lt(a[last], pivot)
        decreases last, !less
      {
        last := last - 1;
        less := lt(a[last], pivot);
      }
    } else {
      last := last - 1;
      assert lt(a[..][first - 1], pivot);
      while !lt(a[last], pivot)
        invariant first - 1 <= last < end
        invariant NoneLess(lt, a[..], last + 1, end, pivot)
        decreases last
      {
        last := last - 1;
      }
    }
    assert first < last ==> !lt(a[..][first], pivot) && lt(a[..][last], pivot);
  }

  /** Swaps a misplaced pair; the pair then guards the two scans for the next one. */
  method NextPair<T(!new)>(a: array<T>, begin: int, end: int, pivot: T, lt: (T, T) -> bool, low: int, high: int)
    returns (first: int, last: int)
    requires 0 <= begin < low < high < end <= a.Length
    requires AllLess(lt, a[..], begin + 1, low, pivot) && NoneLess(lt, a[..], high + 1, end, pivot)
    requires !lt(a[low], pivot) && lt(a[high], pivot)
    modifies a
    ensures Permuted(old(a[..]), a[..], begin + 1, end)
    ensures low < first <= high && low <= last < high && first <= last + 1
    ensures AllLess(lt, a[..], begin + 1, first, pivot) && NoneLess(lt, a[..], last + 1, end, pivot)
    ensures !lt(a[first], pivot) && lt(a[last], pivot)
  {
    SwapPermutes(a[..], a[..][low := a[high]][high := a[low]], low, high, begin + 1, end);
    a[low], a[high] := a[high], a[low];
    first := low + 1;
    while lt(a[first], pivot)
      invariant low < first <= high
      invariant AllLess(lt, a[..], begin + 1, first, pivot)
      decreases high - first
    {
      first := first + 1;
    }
    last := high - 1;
    assert lt(a[..][first - 1], pivot);
    while !lt(a[last], pivot)
      invariant first - 1 <= last < high
      invariant NoneLess(lt, a[..], last + 1, end, pivot)
      decreases last
    {
      last := last - 1;
    }
  }

  /** The plain right partition: swap misplaced pairs between two scans that guard each other. */
  method PartitionRight<T(!new)>(a: array<T>, begin: int, end: int, lt: (T, T) -> bool, ghost m: int)
    returns (pos: int, already: bool)
    requires 0 <= begin < m < end <= a.Length && !lt(a[m], a[begin])
    modifies a
    ensures PartitionedRight(lt, old(a[..]), a[..], begin, end, pos, already)
  {
    var pivot := a[begin];
    var first, last := FindPair(a, begin, end, lt, m);
    already := first >= last;
    while first < last
      invariant begin < first <= last + 1 <= end
      invariant Permuted(old(a[..]), a[..], begin + 1, end)
      invariant AllLess(lt, a[..], begin + 1, first, pivot)
      invariant NoneLess(lt, a[..], last + 1, end, pivot)
      invariant first < last ==> !lt(a[first], pivot) && lt(a[last], pivot)
      invariant first >= last ==> NoneLess(lt, a[..], first, end, pivot)
      decreases last - first
    {
      first, last := NextPair(a, begin, end, pivot, lt, first, last);
    }
    pos := first - 1;
    PlacePivot(a, begin, end, pos, lt);
  }

  /** Puts the pivot held in cell begin into place. */
  method PlacePivot<T(!new)>(a: array<T>, begin: int, end: int, pos: int, lt: (T, T) -> bool)
    requires 0 <= begin <= pos < end <= a.Length
    requires AllLess(lt, a[..], begin + 1, pos + 1, a[begin]) && NoneLess(lt, a[..], pos + 1, end, a[begin])
    modifies a
    ensures Permuted(old(a[..]), a[..], begin, end)
    ensures a[pos] == old(a[begin])
    ensures AllLess(lt, a[..], begin, pos, a[pos]) && NoneLess(lt, a[..], pos + 1, end, a[pos])
  {
    var pivot := a[begin];
    SwapPermutes(a[..], a[..][begin := a[pos]][pos := a[begin]], begin, pos, begin, end);
    a[begin] := a[pos];
    a[pos] := pivot;
  }

  // ----- the left partition -----

  ghost predicate AllMore<T(!new)>(lt: (T, T) -> bool, s: seq<T>, lo: int, hi: int, p: T)
    requires 0 <= lo && hi <= |s|
  {
    forall k :: lo <= k < hi ==> lt(p, s[k])
  }

  /** The searches that open the left partition; the pivot itself stops the first one. */
  method FindLeftPair<T(!new)>(a: array<T>, begin: int, end: int, lt: (T, T) -> bool)
    returns (first: int, last: int)
    requires 0 <= begin < end <= a.Length && !lt(a[begin], a[begin])
    ensures begin <= last < end && begin <= first <= last + 1
    ensures AllMore(lt, a[..], last + 1, end, a[begin]) && !lt(a[begin], a[last])
    ensures NoneMore(lt, a[..], begin, first, a[begin])
    ensures first < last ==> lt(a[begin], a[first])
    ensures first >= last ==> NoneMore(lt, a[..], begin, last + 1, a[begin])
  {
    var pivot := a[begin];
    first, last := begin, end - 1;
    while lt(pivot, a[last])
      invariant begin <= last < end
      invariant AllMore(lt, a[..], last + 1, end, pivot)
      decreases last
    {
      last := last - 1;
    }
    if last + 1 == end {
      var more := false;
      while first < last && !more
        invariant begin <= first <= last
        invariant NoneMore(lt, a[..], begin, first + (if more then 0 else 1), pivot)
        invariant more ==> lt(pivot, a[first])
        decreases last - first, !more
      {
        first := first + 1;
        more := lt(pivot, a[first]);
      }
    } else {
      first := first + 1;
      assert lt(pivot, a[..][last + 1]);
      while !lt(pivot, a[first])
        invariant begin < first <= last + 1
        invariant NoneMore(lt, a[..], begin, first, pivot)
        decreases last - first
      {
        first := first + 1;
      }
    }
  }

  /** Swaps a pair on the wrong sides; the pair then guards the two scans for the next one. */
  method NextLeftPair<T(!new)>(a: array<T>, begin: int, end: int, pivot: T, lt: (T, T) -> bool, low: int, high: int)
    returns (first: int, last: int)
    requires 0 <= begin < low < high < end <= a.Length
    requires NoneMore(lt, a[..], begin, low, pivot) && AllMore(lt, a[..], high + 1, end, pivot)
    requires lt(pivot, a[low]) && !lt(pivot, a[high])
    modifies a
    ensures Permuted(old(a[..]), a[..], begin + 1, end)
    ensures low < first <= high && low <= last < high && first <= last + 1
    ensures NoneMore(lt, a[..], begin, first, pivot) && AllMore(lt, a[..], last + 1, end, pivot)
    ensures lt(pivot, a[first]) && !lt(pivot, a[last])
  {
    SwapPermutes(a[..], a[..][low := a[high]][high := a[low]], low, high, begin + 1, end);
    a[low], a[high] := a[high], a[low];
    last := high - 1;
    while lt(pivot, a[last])
      invariant low <= last < high
      invariant AllMore(lt, a[..], last + 1, end, pivot)
      decreases last
    {
      last := last - 1;
    }
    first := low + 1;
    assert lt(pivot, a[..][last + 1]);
    while !lt(pivot, a[first])
      invariant low < first <= last + 1
      invariant NoneMore(lt, a[..], begin, first, pivot)
      decreases high - first
    {
      first := first + 1;
    }
  }

  /** The left partition: what does not exceed the pivot goes before it. */
  method PartitionLeft<T(!new)>(a: array<T>, begin: int, end: int, lt: (T, T) -> bool)
    returns (pos: int)
    requires 0 <= begin < end <= a.Length && !lt(a[begin], a[begin])
    modifies a
    ensures Permuted(old(a[..]), a[..], begin, end)
    ensures begin <= pos < end && a[pos] == old(a[begin])
    ensures NoneMore(lt, a[..], begin, pos, a[pos])
    ensures AllMore(lt, a[..], pos + 1, end, a[pos])
  {
    var pivot := a[begin];
    var first, last := FindLeftPair(a, begin, end, lt);
    while first < last
      invariant begin <= last < end && begin <= first <= last + 1
      invariant Permuted(old(a[..]), a[..], begin + 1, end)
      invariant AllMore(lt, a[..], last + 1, end, pivot) && NoneMore(lt, a[..], begin, first, pivot)
      invariant first < last ==> begin < first && lt(pivot, a[first]) && !lt(pivot, a[last])
      invariant first >= last ==> NoneMore(lt, a[..], begin, last + 1, pivot)
      decreases last - first
    {
      first, last := NextLeftPair(a, begin, end, pivot, lt, first, last);
    }
    pos := last;
    PlaceLeftPivot(a, begin, end, pos, lt);
  }

  method PlaceLeftPivot<T(!new)>(a: array<T>, begin: int, end: int, pos: int, lt: (T, T) -> bool)
    requires 0 <= begin <= pos < end <= a.Length
    requires NoneMore(lt, a[..], begin, pos + 1, a[begin]) && AllMore(lt, a[..], pos + 1, end, a[begin])
    modifies a
    ensures Permuted(old(a[..]), a[..], begin, end)
    ensures a[pos] == old(a[begin])
    ensures NoneMore(lt, a[..], begin, pos, a[pos]) && AllMore(lt, a[..], pos + 1, end, a[pos])
  {
    var pivot := a[begin];
    SwapPermutes(a[..], a[..][begin := a[pos]][pos := a[begin]], begin, pos, begin, end);
    a[begin] := a[pos];
    a[pos] := pivot;
  }
}
