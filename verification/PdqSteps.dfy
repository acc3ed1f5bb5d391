/** The insertion sorts, pivot choice and shuffles of pdqsort.h. */
module PdqSteps {
  import opened Orders
  import opened PdqPartition
  import opened PdqBranchless

  const INSERTION_SORT_THRESHOLD := 24
  const NINTHER_THRESHOLD := 128
  const PARTIAL_INSERTION_SORT_LIMIT := 8

  // ----- insertion sorts -----

  /** Cell sift is a hole for tmp: with tmp put back s is permuted, the cells right of the hole
      exceed tmp, and the range is in order with the hole holding a copy of its neighbour. */
  ghost predicate Sifting<T(!new)>(lt: (T, T) -> bool, s: seq<T>, t: seq<T>, tmp: T, begin: int, sift: int, cur: int) {
    && 0 <= begin <= sift < cur < |s| == |t|
    && Permuted(s, t[sift := tmp], begin, cur + 1)
    && Sorted(lt, t, begin, cur + 1)
    && AllMore(lt, t, sift + 1, cur + 1, tmp)
  }

  lemma SiftStart<T(!new)>(lt: (T, T) -> bool, s: seq<T>, begin: int, cur: int)
    requires StrictWeak(lt) && 0 <= begin < cur < |s|
    requires Sorted(lt, s, begin, cur) && lt(s[cur], s[cur - 1])
    ensures Sifting(lt, s, s[cur := s[cur - 1]], s[cur], begin, cur - 1, cur)
  {
    Irreflexive(lt, s[cur - 1]);
    SwapPermutes(s, s[cur := s[cur - 1]][cur - 1 := s[cur]], cur - 1, cur, begin, cur + 1);
  }

  lemma SiftStep<T(!new)>(lt: (T, T) -> bool, s: seq<T>, t: seq<T>, tmp: T, begin: int, sift: int, cur: int)
    requires StrictWeak(lt) && Sifting(lt, s, t, tmp, begin, sift, cur)
    requires begin < sift && lt(tmp, t[sift - 1])
    ensures Sifting(lt, s, t[sift := t[sift - 1]], tmp, begin, sift - 1, cur)
  {
    SiftSwap(t, tmp, begin, sift, cur);
    hide Permuted;
    PermutedTrans(s, t[sift := tmp], t[sift := t[sift - 1]][sift - 1 := tmp], begin, cur + 1);
    Irreflexive(lt, t[sift - 1]);
  }

  lemma SiftSwap<T(!new)>(t: seq<T>, tmp: T, begin: int, sift: int, cur: int)
    requires 0 <= begin < sift < cur < |t|
    ensures Permuted(t[sift := tmp], t[sift := t[sift - 1]][sift - 1 := tmp], begin, cur + 1)
  {
    var u := t[sift := tmp];
    var v := t[sift := t[sift - 1]][sift - 1 := tmp];
    assert v == u[sift - 1 := u[sift]][sift := u[sift - 1]];
    SwapPermutes(u, v, sift - 1, sift, begin, cur + 1);
  }

  lemma SiftEnd<T(!new)>(lt: (T, T) -> bool, s: seq<T>, t: seq<T>, tmp: T, begin: int, sift: int, cur: int)
    requires StrictWeak(lt) && Sifting(lt, s, t, tmp, begin, sift, cur)
    requires sift == begin || !lt(tmp, t[sift - 1])
    ensures Sorted(lt, t[sift := tmp], begin, cur + 1)
  {
    forall i | begin <= i < sift
      ensures !lt(tmp, t[i])
    {
      if i < sift - 1 {
        NotLessTrans(lt, tmp, t[sift - 1], t[i]);
      }
    }
    forall k | sift < k < cur + 1
      ensures !lt(t[k], tmp)
    {
      Asymmetric(lt, t[k], tmp);
    }
  }

  // ----- how far an element sinks -----

  /** How many cells exceed x. */
  function Exceeding<T(!new)>(lt: (T, T) -> bool, s: seq<T>, lo: int, hi: int, x: T): nat
    requires 0 <= lo && hi <= |s|
  {
    CountLess((y, z) => lt(z, y), s, lo, hi, x)
  }

  /** How many pairs of cells are out of order. */
  function Inversions<T(!new)>(lt: (T, T) -> bool, s: seq<T>, lo: int, hi: int): nat
    requires 0 <= lo && hi <= |s|
    decreases hi - lo
  {
    if hi <= lo then 0 else Inversions(lt, s, lo, hi - 1) + Exceeding(lt, s, lo, hi - 1, s[hi - 1])
  }

  lemma {:induction false} InversionsSame<T(!new)>(lt: (T, T) -> bool, s: seq<T>, t: seq<T>, lo: int, hi: int)
    requires 0 <= lo && hi <= |s| == |t| && forall x :: lo <= x < hi ==> s[x] == t[x]
    ensures Inversions(lt, s, lo, hi) == Inversions(lt, t, lo, hi)
    decreases hi - lo
  {
    hide Exceeding;
    if lo < hi {
      InversionsSame(lt, s, t, lo, hi - 1);
      ExceedingSame(lt, s, t, lo, hi - 1, s[hi - 1]);
    }
  }

  lemma ExceedingNext<T(!new)>(lt: (T, T) -> bool, s: seq<T>, lo: int, hi: int, x: T)
    requires 0 <= lo <= hi < |s|
    ensures Exceeding(lt, s, lo, hi + 1, x) == Exceeding(lt, s, lo, hi, x) + (if lt(x, s[hi]) then 1 else 0)
  {
  }

  lemma ExceedingSame<T(!new)>(lt: (T, T) -> bool, s: seq<T>, t: seq<T>, lo: int, hi: int, x: T)
    requires 0 <= lo && hi <= |s| == |t| && forall k :: lo <= k < hi ==> s[k] == t[k]
    ensures Exceeding(lt, s, lo, hi, x) == Exceeding(lt, t, lo, hi, x)
  {
    CountLessSame((y, z) => lt(z, y), s, t, lo, hi, x);
  }

  /** Exchanging two neighbours that are out of order takes away one; in order there are none
      (SortedNoInversions). So the number is how many such exchanges sort the range. */
  lemma {:induction false} NeighboursExchanged<T(!new)>(lt: (T, T) -> bool, s: seq<T>, lo: int, hi: int, k: int)
    requires StrictWeak(lt) && 0 <= lo <= k < k + 1 < hi <= |s| && lt(s[k + 1], s[k])
    ensures Inversions(lt, s[k := s[k + 1]][k + 1 := s[k]], lo, hi) == Inversions(lt, s, lo, hi) - 1
    decreases hi
  {
    hide Exceeding;
    var t := s[k := s[k + 1]][k + 1 := s[k]];
    if k + 2 < hi {
      NeighboursExchanged(lt, s, lo, hi - 1, k);
      SwapPermutes(s, t, k, k + 1, lo, hi - 1);
      ExceedingPermuted(lt, s, t, lo, hi - 1, s[hi - 1]);
    } else {
      Asymmetric(lt, s[k + 1], s[k]);
      InversionsSame(lt, s, t, lo, k);
      ExceedingSame(lt, s, t, lo, k, s[k]);
      ExceedingSame(lt, s, t, lo, k, s[k + 1]);
      ExceedingNext(lt, s, lo, k, s[k + 1]);
      ExceedingNext(lt, t, lo, k, s[k]);
      InversionsTwo(lt, s, lo, k);
      InversionsTwo(lt, t, lo, k);
    }
  }

  lemma InversionsTwo<T(!new)>(lt: (T, T) -> bool, s: seq<T>, lo: int, k: int)
    requires 0 <= lo <= k && k + 2 <= |s|
    ensures Inversions(lt, s, lo, k + 2) == Inversions(lt, s, lo, k) + Exceeding(lt, s, lo, k, s[k]) + Exceeding(lt, s, lo, k + 1, s[k + 1])
  {
    InversionsStep(lt, s, lo, k);
    InversionsStep(lt, s, lo, k + 1);
  }

  lemma {:induction false} InversionsMonotone<T(!new)>(lt: (T, T) -> bool, s: seq<T>, lo: int, mid: int, hi: int)
    requires 0 <= lo <= mid <= hi <= |s|
    ensures Inversions(lt, s, lo, mid) <= Inversions(lt, s, lo, hi)
    decreases hi
  {
    if mid < hi {
      InversionsMonotone(lt, s, lo, mid, hi - 1);
    }
  }

  lemma {:induction false} ExceedingSuffix<T(!new)>(lt: (T, T) -> bool, s: seq<T>, lo: int, mid: int, hi: int, x: T)
    requires 0 <= lo <= mid <= hi <= |s| && NoneMore(lt, s, lo, mid, x) && AllMore(lt, s, mid, hi, x)
    ensures Exceeding(lt, s, lo, hi, x) == hi - mid
    decreases hi
  {
    if mid < hi {
      ExceedingSuffix(lt, s, lo, mid, hi - 1, x);
    } else if lo < hi {
      ExceedingSuffix(lt, s, lo, mid - 1, hi - 1, x);
    }
  }

  lemma ExceedingPermuted<T(!new)>(lt: (T, T) -> bool, s: seq<T>, t: seq<T>, lo: int, hi: int, x: T)
    requires Permuted(s, t, lo, hi)
    ensures Exceeding(lt, s, lo, hi, x) == Exceeding(lt, t, lo, hi, x)
  {
    CountPermuted((y, z) => lt(z, y), s, t, lo, hi, x);
  }

  /** An element sinks by one cell for every element before it that exceeds it. */
  lemma SinksBy<T(!new)>(lt: (T, T) -> bool, s: seq<T>, t: seq<T>, begin: int, sift: int, cur: int)
    requires StrictWeak(lt) && 0 <= begin <= sift <= cur < |s| && Permuted(s, t, begin, cur + 1)
    requires t[sift] == s[cur] && Sorted(lt, t, begin, cur + 1) && AllMore(lt, t, sift + 1, cur + 1, s[cur])
    ensures Exceeding(lt, s, begin, cur, s[cur]) == cur - sift
  {
    var x := s[cur];
    Irreflexive(lt, x);
    ExceedingSuffix(lt, t, begin, sift + 1, cur + 1, x);
    ExceedingPermuted(lt, s, t, begin, cur + 1, x);
  }

  /** Sinks cell cur into the sorted cells before it, stopping at begin. */
  method Insert<T(!new)>(a: array<T>, begin: int, cur: int, lt: (T, T) -> bool) returns (sift: int)
    requires StrictWeak(lt) && 0 <= begin < cur < a.Length
    requires Sorted(lt, a[..], begin, cur) && lt(a[cur], a[cur - 1])
    modifies a
    ensures Permuted(old(a[..]), a[..], begin, cur + 1) && Sorted(lt, a[..], begin, cur + 1)
    ensures begin <= sift < cur && cur - sift == Exceeding(lt, old(a[..]), begin, cur, old(a[cur]))
  {
    hide Sifting, Permuted, Exceeding;
    ghost var s := a[..];
    SiftStart(lt, s, begin, cur);
    var tmp := a[cur];
    a[cur] := a[cur - 1];
    sift := cur - 1;
    while sift != begin && lt(tmp, a[sift - 1])
      invariant begin <= sift < cur
      invariant Sifting(lt, s, a[..], tmp, begin, sift, cur)
    {
      SiftStep(lt, s, a[..], tmp, begin, sift, cur);
      a[sift] := a[sift - 1];
      sift := sift - 1;
    }
    SiftEnd(lt, s, a[..], tmp, begin, sift, cur);
    SiftBag(lt, s, a[..], tmp, begin, sift, cur);
    a[sift] := tmp;
    SinksBy(lt, s, a[..], begin, sift, cur);
  }

  lemma SiftBag<T(!new)>(lt: (T, T) -> bool, s: seq<T>, t: seq<T>, tmp: T, begin: int, sift: int, cur: int)
    requires Sifting(lt, s, t, tmp, begin, sift, cur)
    ensures Permuted(s, t[sift := tmp], begin, cur + 1)
    ensures AllMore(lt, t[sift := tmp], sift + 1, cur + 1, tmp)
  {
  }

  /** The same without the bound check: the cell before the range is no greater than any cell of
      it, so the scan reads that cell at most and never passes it. */
  method InsertUnguarded<T(!new)>(a: array<T>, begin: int, cur: int, lt: (T, T) -> bool)
    requires StrictWeak(lt) && 0 < begin < cur < a.Length
    requires NoneLess(lt, a[..], begin, cur + 1, a[begin - 1])
    requires Sorted(lt, a[..], begin, cur) && lt(a[cur], a[cur - 1])
    modifies a
    ensures Permuted(old(a[..]), a[..], begin, cur + 1) && Sorted(lt, a[..], begin, cur + 1)
  {
    hide Sifting;
    ghost var s := a[..];
    SiftStart(lt, s, begin, cur);
    var tmp := a[cur];
    assert !lt(s[cur], s[begin - 1]);
    a[cur] := a[cur - 1];
    var sift := cur - 1;
    while lt(tmp, a[sift - 1])
      invariant begin <= sift < cur
      invariant Sifting(lt, s, a[..], tmp, begin, sift, cur)
      invariant a[begin - 1] == s[begin - 1]
      decreases sift
    {
      SiftStep(lt, s, a[..], tmp, begin, sift, cur);
      a[sift] := a[sift - 1];
      sift := sift - 1;
    }
    SiftEnd(lt, s, a[..], tmp, begin, sift, cur);
    SiftBag(lt, s, a[..], tmp, begin, sift, cur);
    a[sift] := tmp;
  }

  method InsertionSort<T(!new)>(a: array<T>, begin: int, end: int, lt: (T, T) -> bool)
    requires StrictWeak(lt) && 0 <= begin <= end <= a.Length
    modifies a
    ensures Permuted(old(a[..]), a[..], begin, end) && Sorted(lt, a[..], begin, end)
  {
    if begin == end { return; }
    var cur := begin + 1;
    while cur != end
      invariant begin < cur <= end
      invariant Permuted(old(a[..]), a[..], begin, end) && Sorted(lt, a[..], begin, cur)
      decreases end - cur
    {
      if lt(a[cur], a[cur - 1]) {
        var _ := Insert(a, begin, cur, lt);
      } else {
        SortedExtend(lt, a[..], begin, cur);
      }
      cur := cur + 1;
    }
  }

  lemma SortedExtend<T(!new)>(lt: (T, T) -> bool, s: seq<T>, begin: int, cur: int)
    requires StrictWeak(lt) && 0 <= begin < cur < |s|
    requires Sorted(lt, s, begin, cur) && !lt(s[cur], s[cur - 1])
    ensures Sorted(lt, s, begin, cur + 1)
  {
    forall i | begin <= i < cur
      ensures !lt(s[cur], s[i])
    {
      if i < cur - 1 {
        NotLessTrans(lt, s[cur], s[cur - 1], s[i]);
      }
    }
  }

  method UnguardedInsertionSort<T(!new)>(a: array<T>, begin: int, end: int, lt: (T, T) -> bool)
    requires StrictWeak(lt) && 0 < begin <= end <= a.Length
    requires NoneLess(lt, a[..], begin, end, a[begin - 1])
    modifies a
    ensures Permuted(old(a[..]), a[..], begin, end) && Sorted(lt, a[..], begin, end)
  {
    if begin == end { return; }
    var cur := begin + 1;
    while cur != end
      invariant begin < cur <= end
      invariant Permuted(old(a[..]), a[..], begin, end) && Sorted(lt, a[..], begin, cur)
      invariant NoneLess(lt, a[..], begin, end, a[begin - 1])
      decreases end - cur
    {
      ghost var s := a[..];
      if lt(a[cur], a[cur - 1]) {
        InsertUnguarded(a, begin, cur, lt);
        PermutedWiden(s, a[..], begin, cur + 1, begin, end);
        NoneLessKept(lt, s, a[..], begin, end, a[begin - 1]);
      } else {
        SortedExtend(lt, a[..], begin, cur);
      }
      cur := cur + 1;
    }
  }

  /** Sinks cell cur of a range that was s and is sorted up to there, and says by how much. */
  method InsertCounting<T(!new)>(a: array<T>, begin: int, cur: int, lt: (T, T) -> bool, ghost s: seq<T>) returns (moved: int)
    requires StrictWeak(lt) && 0 <= begin < cur < a.Length
    requires Permuted(s, a[..], begin, cur) && Sorted(lt, a[..], begin, cur)
    modifies a
    ensures Permuted(s, a[..], begin, cur + 1) && Sorted(lt, a[..], begin, cur + 1)
    ensures |s| == a.Length && moved == Exceeding(lt, s, begin, cur, s[cur])
    ensures !lt(old(a[cur]), old(a[cur - 1])) ==> a[..] == old(a[..])
  {
    hide Permuted, Exceeding;
    ghost var t := a[..];
    moved := 0;
    CellAfter(s, t, begin, cur);
    ExceedingPermuted(lt, s, t, begin, cur, s[cur]);
    PermutedWiden(s, t, begin, cur, begin, cur + 1);
    if lt(a[cur], a[cur - 1]) {
      var sift := Insert(a, begin, cur, lt);
      PermutedTrans(s, t, a[..], begin, cur + 1);
      moved := cur - sift;
    } else {
      SortedExtend(lt, t, begin, cur);
      NothingExceeds(lt, t, begin, cur);
    }
  }

  /** Sorts exactly the ranges that have, apart from their last cell, at most a few pairs out of order;
      a range already in order is left alone. */
  method PartialInsertionSort<T(!new)>(a: array<T>, begin: int, end: int, lt: (T, T) -> bool) returns (done: bool)
    requires StrictWeak(lt) && 0 <= begin <= end <= a.Length
    modifies a
    ensures Permuted(old(a[..]), a[..], begin, end)
    ensures done <==> Inversions(lt, old(a[..]), begin, end - 1) <= PARTIAL_INSERTION_SORT_LIMIT
    ensures done ==> Sorted(lt, a[..], begin, end)
    ensures Sorted(lt, old(a[..]), begin, end) ==> done && a[..] == old(a[..])
  {
    hide Permuted, Exceeding, Inversions, Sorted;
    ghost var s := a[..];
    if begin == end {
      NoCells(lt, s, begin);
      return true;
    }
    var limit := 0;
    var cur := begin + 1;
    PartialStart(lt, s, begin, end);
    while cur != end
      invariant begin < cur <= end
      invariant Permuted(s, a[..], begin, cur) && Sorted(lt, a[..], begin, cur)
      invariant limit == Inversions(lt, s, begin, cur)
      invariant Inversions(lt, s, begin, cur - 1) <= PARTIAL_INSERTION_SORT_LIMIT
      invariant Sorted(lt, s, begin, end) ==> a[..] == s
      decreases end - cur
    {
      if limit > PARTIAL_INSERTION_SORT_LIMIT {
        InversionsMonotone(lt, s, begin, cur, end - 1);
        PermutedWiden(s, a[..], begin, cur, begin, end);
        return false;
      }
      InversionsStep(lt, s, begin, cur);
      NeighboursOrdered(lt, s, begin, end, cur);
      var moved := InsertCounting(a, begin, cur, lt, s);
      limit := limit + moved;
      cur := cur + 1;
    }
    return true;
  }

  lemma NeighboursOrdered<T(!new)>(lt: (T, T) -> bool, s: seq<T>, begin: int, end: int, cur: int)
    requires 0 <= begin < cur < end <= |s|
    ensures Sorted(lt, s, begin, end) ==> !lt(s[cur], s[cur - 1])
  {
  }

  lemma InversionsStep<T(!new)>(lt: (T, T) -> bool, s: seq<T>, lo: int, hi: int)
    requires 0 <= lo <= hi < |s|
    ensures Inversions(lt, s, lo, hi + 1) == Inversions(lt, s, lo, hi) + Exceeding(lt, s, lo, hi, s[hi])
  {
  }

  lemma NoCells<T(!new)>(lt: (T, T) -> bool, s: seq<T>, begin: int)
    requires 0 <= begin <= |s|
    ensures Permuted(s, s, begin, begin) && Sorted(lt, s, begin, begin) && Inversions(lt, s, begin, begin - 1) == 0
  {
  }

  lemma PartialStart<T(!new)>(lt: (T, T) -> bool, s: seq<T>, begin: int, end: int)
    requires 0 <= begin < end <= |s|
    ensures Permuted(s, s, begin, begin + 1) && Sorted(lt, s, begin, begin + 1) && Inversions(lt, s, begin, begin) == 0 && Inversions(lt, s, begin, begin + 1) == 0
    ensures Sorted(lt, s, begin, end) ==> Inversions(lt, s, begin, end - 1) == 0
  {
    if Sorted(lt, s, begin, end) { SortedNoInversions(lt, s, begin, end - 1); }
  }

  lemma CellAfter<T(!new)>(s: seq<T>, t: seq<T>, begin: int, cur: int)
    requires Permuted(s, t, begin, cur) && cur < |t|
    ensures |t| == |s| && t[cur] == s[cur]
  {
  }

  lemma NothingExceeds<T(!new)>(lt: (T, T) -> bool, s: seq<T>, begin: int, cur: int)
    requires 0 <= begin < cur < |s| && Sorted(lt, s, begin, cur + 1)
    ensures Exceeding(lt, s, begin, cur, s[cur]) == 0
  {
    ExceedingSuffix(lt, s, begin, cur, cur, s[cur]);
  }

  lemma {:induction false} SortedNoInversions<T(!new)>(lt: (T, T) -> bool, s: seq<T>, lo: int, hi: int)
    requires 0 <= lo && hi <= |s| && (lo < hi ==> Sorted(lt, s, lo, hi))
    ensures Inversions(lt, s, lo, hi) == 0
    decreases hi - lo
  {
    if lo < hi {
      SortedNoInversions(lt, s, lo, hi - 1);
      if lo < hi - 1 { NothingExceeds(lt, s, lo, hi - 1); }
    }
  }

  // ----- pivot choice -----

  method Exchange<T(!new)>(a: array<T>, i: int, k: int, ghost lo: int, ghost hi: int)
    requires 0 <= lo <= i < hi <= a.Length && lo <= k < hi
    modifies a
    ensures Permuted(old(a[..]), a[..], lo, hi) && a[..] == Swapped(old(a[..]), i, k)
  {
    SwapPermutes(a[..], a[..][i := a[k]][k := a[i]], i, k, lo, hi);
    a[i], a[k] := a[k], a[i];
  }

  method Sort2<T(!new)>(a: array<T>, i: int, k: int, lt: (T, T) -> bool, ghost lo: int, ghost hi: int)
    requires StrictWeak(lt) && 0 <= lo <= i < hi <= a.Length && lo <= k < hi && i != k
    modifies a
    ensures Permuted(old(a[..]), a[..], lo, hi)
    ensures forall x :: 0 <= x < a.Length && x != i && x != k ==> a[x] == old(a[x])
    ensures if lt(old(a[k]), old(a[i])) then a[i] == old(a[k]) && a[k] == old(a[i])
            else a[i] == old(a[i]) && a[k] == old(a[k])
    ensures !lt(a[k], a[i])
  {
    Asymmetric(lt, a[k], a[i]);
    if lt(a[k], a[i]) {
      SwapPermutes(a[..], a[..][i := a[k]][k := a[i]], i, k, lo, hi);
      a[i], a[k] := a[k], a[i];
    }
  }

  /** What three comparisons of neighbours make of three elements. */
  lemma SortedThree<T(!new)>(lt: (T, T) -> bool, x: T, y: T, z: T, u: T, v: T, w: T)
    requires StrictWeak(lt) && !lt(v, u) && !lt(w, v)
    requires var x1, y1 := if lt(y, x) then y else x, if lt(y, x) then x else y;
             var y2, z2 := if lt(z, y1) then z else y1, if lt(z, y1) then y1 else z;
             u == (if lt(y2, x1) then y2 else x1) && v == (if lt(y2, x1) then x1 else y2) && w == z2
    ensures IsMedian(lt, v, x, y, z)
  {
    MiddleIsMedian(lt, x, y, z, u, v, w);
  }

  /** Three cells end in order. */
  method Sort3<T(!new)>(a: array<T>, i: int, j: int, k: int, lt: (T, T) -> bool, ghost lo: int, ghost hi: int)
    requires StrictWeak(lt) && 0 <= lo <= i < hi <= a.Length && lo <= j < hi && lo <= k < hi
    requires i != j && j != k && i != k
    modifies a
    ensures Permuted(old(a[..]), a[..], lo, hi)
    ensures forall x :: 0 <= x < a.Length && x != i && x != j && x != k ==> a[x] == old(a[x])
    ensures !lt(a[j], a[i]) && !lt(a[k], a[j])
    ensures IsMedian(lt, a[j], old(a[i]), old(a[j]), old(a[k]))
  {
    hide Permuted, IsMedian, StrictWeak, SameThree;
    ghost var s, x0, y0, z0 := a[..], a[i], a[j], a[k];
    Sort2(a, i, j, lt, lo, hi);
    ghost var t, x, y, z := a[..], a[i], a[j], a[k];
    Sort2(a, j, k, lt, lo, hi);
    ghost var u := a[..];
    Sort2(a, i, j, lt, lo, hi);
    PermutedTrans(s, t, u, lo, hi);
    PermutedTrans(s, u, a[..], lo, hi);
    // The largest of the three is in cell k.
    if lt(z, y) {
      Asymmetric(lt, y, z);
    } else {
      NotLessTrans(lt, z, y, x);
    }
    SortedThree(lt, x0, y0, z0, a[i], a[j], a[k]);
  }

  /** p is the median of the medians of three cells each at the front, in the middle and at the end. */
  ghost predicate IsNinther<T(!new)>(lt: (T, T) -> bool, s: seq<T>, begin: int, end: int, p: T)
    requires 0 <= begin && end <= |s| && 8 < end - begin
  {
    var mid := begin + (end - begin) / 2;
    exists x, y, z ::
      && IsMedian(lt, x, s[begin], s[mid], s[end - 1])
      && IsMedian(lt, y, s[begin + 1], s[mid - 1], s[end - 2])
      && IsMedian(lt, z, s[begin + 2], s[mid + 1], s[end - 3])
      && IsMedian(lt, p, y, x, z)
  }

  /** Sorts three cells each at the front, in the middle and at the end. */
  method MediansOfThree<T(!new)>(a: array<T>, begin: int, end: int, s2: int, lt: (T, T) -> bool)
    requires StrictWeak(lt) && 0 <= begin && end <= a.Length && 8 < end - begin && s2 == (end - begin) / 2
    modifies a
    ensures Permuted(old(a[..]), a[..], begin, end)
    ensures IsMedian(lt, a[begin + s2], old(a[begin]), old(a[begin + s2]), old(a[end - 1]))
    ensures IsMedian(lt, a[begin + (s2 - 1)], old(a[begin + 1]), old(a[begin + (s2 - 1)]), old(a[end - 2]))
    ensures IsMedian(lt, a[begin + (s2 + 1)], old(a[begin + 2]), old(a[begin + (s2 + 1)]), old(a[end - 3]))
  {
    hide Permuted, IsMedian, StrictWeak;
    ghost var s := a[..];
    Sort3(a, begin, begin + s2, end - 1, lt, begin, end);
    ghost var t := a[..];
    Sort3(a, begin + 1, begin + (s2 - 1), end - 2, lt, begin, end);
    ghost var u := a[..];
    Sort3(a, begin + 2, begin + (s2 + 1), end - 3, lt, begin, end);
    PermutedTrans(s, t, u, begin, end);
    PermutedTrans(s, u, a[..], begin, end);
  }

  /** The median of three medians of three goes to the middle. */
  method Medians<T(!new)>(a: array<T>, begin: int, end: int, s2: int, lt: (T, T) -> bool)
    requires StrictWeak(lt) && 0 <= begin && end <= a.Length && 8 < end - begin && s2 == (end - begin) / 2
    modifies a
    ensures Permuted(old(a[..]), a[..], begin, end)
    ensures !lt(a[begin + (s2 + 1)], a[begin + s2])
    ensures IsNinther(lt, old(a[..]), begin, end, a[begin + s2])
  {
    hide Permuted, IsMedian, StrictWeak, IsNinther;
    ghost var s := a[..];
    MediansOfThree(a, begin, end, s2, lt);
    ghost var t := a[..];
    Sort3(a, begin + (s2 - 1), begin + s2, begin + (s2 + 1), lt, begin, end);
    PermutedTrans(s, t, a[..], begin, end);
    NintherOf(lt, s, begin, end, t[begin + s2], t[begin + (s2 - 1)], t[begin + (s2 + 1)], a[begin + s2]);
  }

  lemma NintherOf<T(!new)>(lt: (T, T) -> bool, s: seq<T>, begin: int, end: int, x: T, y: T, z: T, p: T)
    requires 0 <= begin && end <= |s| && 8 < end - begin
    requires var mid := begin + (end - begin) / 2;
             && IsMedian(lt, x, s[begin], s[mid], s[end - 1])
             && IsMedian(lt, y, s[begin + 1], s[mid - 1], s[end - 2])
             && IsMedian(lt, z, s[begin + 2], s[mid + 1], s[end - 3])
             && IsMedian(lt, p, y, x, z)
    ensures IsNinther(lt, s, begin, end, p)
  {
    hide IsMedian;
  }

  /** p is the median of the first, middle and last cell, in long ranges of three such medians. */
  ghost predicate IsPivot<T(!new)>(lt: (T, T) -> bool, s: seq<T>, begin: int, end: int, p: T)
    requires 0 <= begin && end <= |s| && INSERTION_SORT_THRESHOLD <= end - begin
  {
    if end - begin > NINTHER_THRESHOLD then IsNinther(lt, s, begin, end, p)
    else IsMedian(lt, p, s[begin], s[begin + (end - begin) / 2], s[end - 1])
  }

  /** The median of three cells, or of three medians, goes to begin; some other cell is not less. */
  method ChoosePivot<T(!new)>(a: array<T>, begin: int, end: int, lt: (T, T) -> bool) returns (ghost m: int)
    requires StrictWeak(lt) && 0 <= begin && end <= a.Length && INSERTION_SORT_THRESHOLD <= end - begin
    modifies a
    ensures Permuted(old(a[..]), a[..], begin, end)
    ensures begin < m < end && !lt(a[m], a[begin])
    ensures IsPivot(lt, old(a[..]), begin, end, a[begin])
  {
    hide Permuted, IsMedian, IsNinther, StrictWeak;
    var size := end - begin;
    var s2 := size / 2;
    if size > NINTHER_THRESHOLD {
      ghost var s := a[..];
      Medians(a, begin, end, s2, lt);
      ghost var t := a[..];
      Exchange(a, begin, begin + s2, begin, end);
      PermutedTrans(s, t, a[..], begin, end);
      m := begin + (s2 + 1);
    } else {
      ghost var x, y, z := a[begin + s2], a[begin], a[end - 1];
      Sort3(a, begin + s2, begin, end - 1, lt, begin, end);
      MedianTurned(lt, a[begin], x, y, z);
      m := end - 1;
    }
  }

  lemma MedianTurned<T(!new)>(lt: (T, T) -> bool, m: T, x: T, y: T, z: T)
    requires IsMedian(lt, m, x, y, z)
    ensures IsMedian(lt, m, y, x, z)
  {
  }

  // ----- breaking patterns -----

  function Swapped<T>(s: seq<T>, i: int, k: int): (t: seq<T>)
    requires 0 <= i < |s| && 0 <= k < |s|
    ensures |t| == |s|
  {
    s[i := s[k]][k := s[i]]
  }

  /** The first and the last cell, of long ranges three at either end, change places with cells a
      quarter of the range away. */
  ghost function Shuffled<T(!new)>(s: seq<T>, lo: int, hi: int): (t: seq<T>)
    requires 0 <= lo <= hi <= |s|
    ensures |t| == |s|
  {
    var q := (hi - lo) / 4;
    if hi - lo < INSERTION_SORT_THRESHOLD then s
    else
      var t := Swapped(Swapped(s, lo, lo + q), hi - 1, hi - q);
      if hi - lo <= NINTHER_THRESHOLD then t
      else
        Swapped(Swapped(Swapped(Swapped(t, lo + 1, lo + (q + 1)), lo + 2, lo + (q + 2)), hi - 2, hi - (q + 1)), hi - 3, hi - (q + 2))
  }

  /** Which cell of lo..hi-1 a shuffle exchanges with cell x. */
  function ShufflePartner(lo: int, hi: int, x: int): int {
    var q, w := (hi - lo) / 4, if hi - lo > NINTHER_THRESHOLD then 3 else 1;
    if hi - lo < INSERTION_SORT_THRESHOLD then x
    else if lo <= x < lo + w then x + q
    else if lo + q <= x < lo + q + w then x - q
    else if hi - w <= x < hi then x - (q - 1)
    else if hi - q - w < x <= hi - q then x + (q - 1)
    else x
  }

  /** Partners change places. */
  lemma ShuffledAt<T(!new)>(s: seq<T>, lo: int, hi: int, x: int)
    requires 0 <= lo <= x < hi <= |s|
    ensures var y := ShufflePartner(lo, hi, x);
            lo <= y < hi && ShufflePartner(lo, hi, y) == x && Shuffled(s, lo, hi)[x] == s[y]
  {
  }

  /** Shuffles one side of a bad partition inside its own cells. */
  method Shuffle<T(!new)>(a: array<T>, lo: int, hi: int)
    requires 0 <= lo <= hi <= a.Length
    modifies a
    ensures Permuted(old(a[..]), a[..], lo, hi) && a[..] == Shuffled(old(a[..]), lo, hi)
  {
    hide Permuted, Swapped;
    ghost var s := a[..];
    PermutedSelf(s, lo, hi);
    var size := hi - lo;
    if size >= INSERTION_SORT_THRESHOLD {
      Exchange(a, lo, lo + size / 4, lo, hi);
      ghost var t := a[..];
      Exchange(a, hi - 1, hi - size / 4, lo, hi);
      PermutedTrans(s, t, a[..], lo, hi);
      if size > NINTHER_THRESHOLD {
        ghost var u := a[..];
        Exchange(a, lo + 1, lo + (size / 4 + 1), lo, hi);
        PermutedTrans(s, u, a[..], lo, hi);
        ghost var v := a[..];
        Exchange(a, lo + 2, lo + (size / 4 + 2), lo, hi);
        PermutedTrans(s, v, a[..], lo, hi);
        ghost var w := a[..];
        Exchange(a, hi - 2, hi - (size / 4 + 1), lo, hi);
        PermutedTrans(s, w, a[..], lo, hi);
        ghost var x := a[..];
        Exchange(a, hi - 3, hi - (size / 4 + 2), lo, hi);
        PermutedTrans(s, x, a[..], lo, hi);
      }
    }
  }
}
