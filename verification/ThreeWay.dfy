/** The base sort of the sample sort family, quickSort.h: median of three and a three-way partition. */
module ThreeWay {
  import opened Orders
  import opened PdqPartition

  const ISORT := 25

  function Median<T>(a: T, b: T, c: T, lt: (T, T) -> bool): T {
    if lt(a, b) then (if lt(b, c) then b else if lt(a, c) then c else a)
    else if lt(a, c) then a else if lt(b, c) then c else b
  }

  /** The median is one of the three, two of them do not exceed it and two are not less. */
  lemma MedianOf<T(!new)>(a: T, b: T, c: T, lt: (T, T) -> bool)
    requires StrictWeak(lt)
    ensures IsMedian(lt, Median(a, b, c, lt), a, b, c)
  {
    var m := Median(a, b, c, lt);
    Irreflexive(lt, m);
    Asymmetric(lt, a, b);
    Asymmetric(lt, b, c);
    Asymmetric(lt, a, c);
  }

  /** How many cells do not exceed p. */
  function CountUpTo<T(!new)>(lt: (T, T) -> bool, s: seq<T>, lo: int, hi: int, p: T): nat
    requires 0 <= lo && hi <= |s|
  {
    CountLess((y, z) => !lt(z, y), s, lo, hi, p)
  }

  lemma {:induction false} CountAtLeastOne<T(!new)>(lt: (T, T) -> bool, s: seq<T>, lo: int, hi: int, p: T, i: int)
    requires 0 <= lo <= i < hi <= |s| && !lt(p, s[i])
    ensures CountUpTo(lt, s, lo, hi, p) >= 1
    decreases hi - lo
  {
    if i < hi - 1 {
      CountAtLeastOne(lt, s, lo, hi - 1, p, i);
    }
  }

  lemma {:induction false} CountAtLeastTwo<T(!new)>(lt: (T, T) -> bool, s: seq<T>, lo: int, hi: int, p: T, i: int, k: int)
    requires 0 <= lo <= i < k < hi <= |s| && !lt(p, s[i]) && !lt(p, s[k])
    ensures CountUpTo(lt, s, lo, hi, p) >= 2
    decreases hi - lo
  {
    if k < hi - 1 {
      CountAtLeastTwo(lt, s, lo, hi - 1, p, i, k);
    } else {
      CountAtLeastOne(lt, s, lo, hi - 1, p, i);
    }
  }

  lemma {:induction false} CountTail<T(!new)>(lt: (T, T) -> bool, s: seq<T>, lo: int, mid: int, hi: int, p: T)
    requires 0 <= lo <= mid <= hi <= |s| && AllMore(lt, s, mid, hi, p)
    ensures CountUpTo(lt, s, lo, hi, p) <= mid - lo
    decreases hi - lo
  {
    if mid < hi {
      CountTail(lt, s, lo, mid, hi - 1, p);
    } else if lo < hi {
      CountTail(lt, s, lo, hi - 1, hi - 1, p);
    }
  }

  /** Cells lo..hi-1 are neither less nor greater than p. */
  ghost predicate AllEqual<T(!new)>(lt: (T, T) -> bool, s: seq<T>, lo: int, hi: int, p: T)
    requires 0 <= lo && hi <= |s|
  {
    NoneMore(lt, s, lo, hi, p) && NoneLess(lt, s, lo, hi, p)
  }

  /** Below l less than p, from l to m equal, above r greater. */
  ghost predicate Parts<T(!new)>(lt: (T, T) -> bool, s: seq<T>, lo: int, l: int, m: int, r: int, hi: int, p: T) {
    && 0 <= lo <= l <= m <= r + 1 <= hi <= |s|
    && AllLess(lt, s, lo, l, p) && AllEqual(lt, s, l, m, p) && AllMore(lt, s, r + 1, hi, p)
  }

  /** The pivot is in the range and a second element does not exceed it, in any order of the range. */
  ghost predicate Pivotal<T(!new)>(lt: (T, T) -> bool, s: seq<T>, lo: int, hi: int, p: T)
    requires 0 <= lo <= hi <= |s|
  {
    CountUpTo(lt, s, lo, hi, p) >= 2 && exists c :: lo <= c < hi && s[c] == p
  }

  lemma PivotalKept<T(!new)>(lt: (T, T) -> bool, s: seq<T>, t: seq<T>, lo: int, hi: int, p: T)
    requires Permuted(s, t, lo, hi) && Pivotal(lt, s, lo, hi, p)
    ensures Pivotal(lt, t, lo, hi, p)
  {
    CountPermuted((y, z) => !lt(z, y), s, t, lo, hi, p);
    var c :| lo <= c < hi && s[c] == p;
    var k := PermutedFrom(t, s, lo, hi, c);
  }

  /** A cell not greater than p joins the middle or, exchanged with its first cell, the left part. */
  method Settle<T(!new)>(a: array<T>, lo: int, l0: int, m: int, r: int, hi: int, p: T, lt: (T, T) -> bool)
    returns (l: int)
    requires hi <= a.Length && Parts(lt, a[..], lo, l0, m, r, hi, p) && m <= r && !lt(p, a[m])
    modifies a
    ensures Permuted(old(a[..]), a[..], lo, hi) && Parts(lt, a[..], lo, l, m + 1, r, hi, p)
    ensures !lt(p, a[m])
  {
    l := l0;
    if lt(a[m], p) {
      SettleLess(lt, a[..], a[..][m := a[l]][l := a[m]], lo, l, m, r, hi, p);
      a[m], a[l] := a[l], a[m];
      l := l + 1;
    }
  }

  lemma SettleLess<T(!new)>(lt: (T, T) -> bool, s: seq<T>, t: seq<T>, lo: int, l: int, m: int, r: int, hi: int, p: T)
    requires Parts(lt, s, lo, l, m, r, hi, p) && m <= r && !lt(p, s[m]) && lt(s[m], p)
    requires t == s[m := s[l]][l := s[m]]
    ensures Permuted(s, t, lo, hi) && Parts(lt, t, lo, l + 1, m + 1, r, hi, p) && !lt(p, t[m])
  {
    SwapPermutes(s, t, m, l, lo, hi);
  }

  /** The left scan: it settles cells until one exceeds the pivot or it meets the right wall. */
  method ScanUp<T(!new)>(a: array<T>, lo: int, l0: int, m0: int, r: int, hi: int, p: T, lt: (T, T) -> bool)
    returns (l: int, m: int)
    requires hi <= a.Length && Parts(lt, a[..], lo, l0, m0, r, hi, p) && m0 < hi
    modifies a
    ensures Permuted(old(a[..]), a[..], lo, hi) && m0 <= m < hi
    ensures if lt(p, a[m]) then Parts(lt, a[..], lo, l, m, r, hi, p)
            else m == r && Parts(lt, a[..], lo, l, m + 1, r, hi, p)
  {
    l, m := l0, m0;
    while !lt(p, a[m])
      invariant m0 <= m < hi && Permuted(old(a[..]), a[..], lo, hi) && Parts(lt, a[..], lo, l, m, r, hi, p)
      decreases r - m
    {
      ghost var s := a[..];
      l := Settle(a, lo, l, m, r, hi, p, lt);
      PermutedTrans(old(a[..]), s, a[..], lo, hi);
      if m >= r { break; }
      m := m + 1;
    }
  }

  /** The pivot itself stops the right scan. */
  method ScanDown<T(!new)>(a: array<T>, lo: int, r0: int, hi: int, p: T, lt: (T, T) -> bool) returns (r: int)
    requires 0 <= lo <= r0 < hi <= a.Length && !lt(p, p)
    requires AllMore(lt, a[..], r0 + 1, hi, p) && exists c :: lo <= c < hi && a[..][c] == p
    ensures lo <= r <= r0 && AllMore(lt, a[..], r + 1, hi, p) && !lt(p, a[r])
  {
    ghost var c :| lo <= c < hi && a[..][c] == p;
    r := r0;
    while lt(p, a[r])
      invariant c <= r <= r0 && AllMore(lt, a[..], r + 1, hi, p)
      decreases r
    {
      r := r - 1;
    }
  }

  /** Exchanges a greater element on the left with one not greater on the right and settles it. */
  method SwapSides<T(!new)>(a: array<T>, lo: int, l0: int, m: int, r: int, hi: int, p: T, lt: (T, T) -> bool)
    returns (l: int)
    requires hi <= a.Length && Parts(lt, a[..], lo, l0, m, r, hi, p) && m < r && lt(p, a[m]) && !lt(p, a[r])
    modifies a
    ensures Permuted(old(a[..]), a[..], lo, hi) && Parts(lt, a[..], lo, l, m + 1, r - 1, hi, p)
  {
    SwapPermutes(a[..], a[..][m := a[r]][r := a[m]], m, r, lo, hi);
    a[m], a[r] := a[r], a[m];
    ghost var s := a[..];
    l := Settle(a, lo, l0, m, r - 1, hi, p, lt);
    PermutedTrans(old(a[..]), s, a[..], lo, hi);
  }

  /** Partitions lo..hi-1 around p: less before l, equal from l to m, not less from m on; both
      sides are shorter than the range and apart from each other. */
  method Partition<T(!new)>(a: array<T>, lo: int, hi: int, p: T, lt: (T, T) -> bool) returns (l: int, m: int)
    requires StrictWeak(lt) && 0 <= lo < hi <= a.Length && Pivotal(lt, a[..], lo, hi, p)
    modifies a
    ensures Permuted(old(a[..]), a[..], lo, hi)
    ensures lo <= l <= m <= hi && l < hi && lo < m
    ensures AllLess(lt, a[..], lo, l, p) && AllEqual(lt, a[..], l, m, p) && NoneLess(lt, a[..], m, hi, p)
  {
    hide Parts, Pivotal, CountUpTo;
    ghost var s := a[..];
    l, m := lo, lo;
    var r := hi - 1;
    PartsStart(lt, s, lo, hi, p);
    while true
      invariant m < hi && Permuted(s, a[..], lo, hi) && Parts(lt, a[..], lo, l, m, r, hi, p)
      decreases r - m
    {
      ghost var s0 := a[..];
      PartsOrder(lt, a[..], lo, l, m, r, hi, p);
      ghost var m0 := m;
      l, m := ScanUp(a, lo, l, m, r, hi, p, lt);
      PermutedTrans(s, s0, a[..], lo, hi);
      PivotalKept(lt, s, a[..], lo, hi, p);
      ghost var s1, r0 := a[..], r;
      PartsWalls(lt, s1, lo, l, m, r, hi, p);
      r := ScanDown(a, lo, r, hi, p, lt);
      if m >= r {
        PartsDone(lt, s1, lo, l, m, r0, r, hi, p);
        return;
      }
      PartsLower(lt, s1, lo, l, m, r0, r, hi, p);
      l := SwapSides(a, lo, l, m, r, hi, p, lt);
      PermutedTrans(s, s1, a[..], lo, hi);
      r := r - 1;
      m := m + 1;
      PartsOrder(lt, a[..], lo, l, m, r, hi, p);
    }
  }

  lemma PartsStart<T(!new)>(lt: (T, T) -> bool, s: seq<T>, lo: int, hi: int, p: T)
    requires 0 <= lo < hi <= |s|
    ensures Parts(lt, s, lo, lo, lo, hi - 1, hi, p)
  {
  }

  lemma PartsOrder<T(!new)>(lt: (T, T) -> bool, s: seq<T>, lo: int, l: int, m: int, r: int, hi: int, p: T)
    requires Parts(lt, s, lo, l, m, r, hi, p)
    ensures 0 <= lo <= l <= m <= r + 1 <= hi <= |s|
  {
  }

  /** What the two scans need: above r all is greater and the pivot is in the range. */
  lemma PartsWalls<T(!new)>(lt: (T, T) -> bool, s: seq<T>, lo: int, l: int, m: int, r: int, hi: int, p: T)
    requires StrictWeak(lt) && lo <= m < hi <= |s| && 0 <= lo
    requires if lt(p, s[m]) then Parts(lt, s, lo, l, m, r, hi, p) else m == r && Parts(lt, s, lo, l, m + 1, r, hi, p)
    requires Pivotal(lt, s, lo, hi, p)
    ensures !lt(p, p) && lo <= r < hi && AllMore(lt, s, r + 1, hi, p)
    ensures exists c :: lo <= c < hi && s[c] == p
  {
    Irreflexive(lt, p);
  }

  /** When the walls meet the parts are final: the pivot lies between them and, two elements not
      exceeding it, the right side is shorter than the range. */
  lemma PartsDone<T(!new)>(lt: (T, T) -> bool, s: seq<T>, lo: int, l: int, m: int, r0: int, r: int, hi: int, p: T)
    requires StrictWeak(lt) && lo <= m < hi <= |s| && 0 <= lo && Pivotal(lt, s, lo, hi, p)
    requires if lt(p, s[m]) then Parts(lt, s, lo, l, m, r0, hi, p) else m == r0 && Parts(lt, s, lo, l, m + 1, r0, hi, p)
    requires lo <= r <= r0 && r <= m && AllMore(lt, s, r + 1, hi, p) && !lt(p, s[r])
    ensures lo <= l <= m <= hi && l < hi && lo < m
    ensures AllLess(lt, s, lo, l, p) && AllEqual(lt, s, l, m, p) && NoneLess(lt, s, m, hi, p)
  {
    Irreflexive(lt, p);
    var c :| lo <= c < hi && s[c] == p;
    CountTail(lt, s, lo, r + 1, hi, p);
    forall k | m < k < hi
      ensures !lt(s[k], p)
    {
      Asymmetric(lt, p, s[k]);
    }
    Asymmetric(lt, p, s[m]);
  }

  lemma PartsLower<T(!new)>(lt: (T, T) -> bool, s: seq<T>, lo: int, l: int, m: int, r0: int, r: int, hi: int, p: T)
    requires lo <= m < hi <= |s| && 0 <= lo && r <= r0
    requires if lt(p, s[m]) then Parts(lt, s, lo, l, m, r0, hi, p) else m == r0 && Parts(lt, s, lo, l, m + 1, r0, hi, p)
    requires m < r && AllMore(lt, s, r + 1, hi, p)
    ensures lt(p, s[m]) && Parts(lt, s, lo, l, m, r, hi, p)
  {
  }

  // ----- the sort -----

  /** Cell hole is open for v: with v put back s is permuted, the other cells up to i are in order,
      and those above the hole exceed v. */
  ghost predicate Opened<T(!new)>(lt: (T, T) -> bool, s: seq<T>, t: seq<T>, v: T, lo: int, hole: int, i: int) {
    && 0 <= lo <= hole <= i < |s| == |t|
    && Permuted(s, t[hole := v], lo, i + 1)
    && (forall x, y :: lo <= x < y <= i && x != hole && y != hole ==> !lt(t[y], t[x]))
    && AllMore(lt, t, hole + 1, i + 1, v)
  }

  lemma OpenedStep<T(!new)>(lt: (T, T) -> bool, s: seq<T>, t: seq<T>, v: T, lo: int, hole: int, i: int)
    requires Opened(lt, s, t, v, lo, hole, i) && lo < hole && lt(v, t[hole - 1])
    ensures Opened(lt, s, t[hole := t[hole - 1]], v, lo, hole - 1, i)
  {
    hide Permuted;
    HoleSwap(t, v, lo, hole, i);
    PermutedTrans(s, t[hole := v], t[hole := t[hole - 1]][hole - 1 := v], lo, i + 1);
  }

  lemma HoleSwap<T(!new)>(t: seq<T>, v: T, lo: int, hole: int, i: int)
    requires 0 <= lo < hole <= i < |t|
    ensures Permuted(t[hole := v], t[hole := t[hole - 1]][hole - 1 := v], lo, i + 1)
  {
    assert t[hole := v][hole - 1 := v][hole := t[hole - 1]] == t[hole := t[hole - 1]][hole - 1 := v];
    SwapPermutes(t[hole := v], t[hole := t[hole - 1]][hole - 1 := v], hole - 1, hole, lo, i + 1);
  }

  lemma OpenedEnd<T(!new)>(lt: (T, T) -> bool, s: seq<T>, t: seq<T>, v: T, lo: int, hole: int, i: int)
    requires StrictWeak(lt) && Opened(lt, s, t, v, lo, hole, i) && (hole == lo || !lt(v, t[hole - 1]))
    ensures Permuted(s, t[hole := v], lo, i + 1) && Sorted(lt, t[hole := v], lo, i + 1)
  {
    var u := t[hole := v];
    forall x, y | lo <= x < y < i + 1
      ensures !lt(u[y], u[x])
    {
      if x == hole {
        Asymmetric(lt, v, t[y]);
      } else if y == hole && x < hole - 1 {
        NotLessTrans(lt, v, t[hole - 1], t[x]);
      }
    }
  }

  method InsertionSort<T(!new)>(a: array<T>, lo: int, hi: int, lt: (T, T) -> bool)
    requires StrictWeak(lt) && 0 <= lo <= hi <= a.Length
    modifies a
    ensures Permuted(old(a[..]), a[..], lo, hi) && Sorted(lt, a[..], lo, hi)
  {
    var i := lo;
    while i < hi
      invariant lo <= i <= hi
      invariant Permuted(old(a[..]), a[..], lo, hi) && Sorted(lt, a[..], lo, i)
    {
      Insert(a, lo, i, lt);
      i := i + 1;
    }
  }

  method Insert<T(!new)>(a: array<T>, lo: int, i: int, lt: (T, T) -> bool)
    requires StrictWeak(lt) && 0 <= lo <= i < a.Length && Sorted(lt, a[..], lo, i)
    modifies a
    ensures Permuted(old(a[..]), a[..], lo, i + 1) && Sorted(lt, a[..], lo, i + 1)
  {
    hide Opened;
    var v := a[i];
    var b := i - 1;
    ghost var s := a[..];
    OpenedStart(lt, s, lo, i);
    while b >= lo && lt(v, a[b])
      invariant lo - 1 <= b < i
      invariant Opened(lt, s, a[..], v, lo, b + 1, i)
    {
      OpenedStep(lt, s, a[..], v, lo, b + 1, i);
      a[b + 1] := a[b];
      b := b - 1;
    }
    OpenedEnd(lt, s, a[..], v, lo, b + 1, i);
    a[b + 1] := v;
  }

  lemma OpenedStart<T(!new)>(lt: (T, T) -> bool, s: seq<T>, lo: int, i: int)
    requires 0 <= lo <= i < |s| && Sorted(lt, s, lo, i)
    ensures Opened(lt, s, s, s[i], lo, i, i)
  {
    assert s[i := s[i]] == s;
  }

  lemma SplitEqual<T(!new)>(lt: (T, T) -> bool, s: seq<T>, lo: int, l: int, m: int, hi: int, p: T)
    requires StrictWeak(lt) && 0 <= lo <= l <= m <= hi <= |s|
    requires AllLess(lt, s, lo, l, p) && AllEqual(lt, s, l, m, p) && NoneLess(lt, s, m, hi, p)
    requires Sorted(lt, s, lo, l) && Sorted(lt, s, m, hi)
    ensures Sorted(lt, s, lo, hi)
  {
    forall i, k | lo <= i < k < hi
      ensures !lt(s[k], s[i])
    {
      if i < m && l <= k {
        if i < l { Asymmetric(lt, s[i], p); }
        NotLessTrans(lt, s[k], p, s[i]);
      }
    }
  }

  /** Sorting the left side and then the right keeps the parts of the partition. */
  lemma PartsKept<T(!new)>(lt: (T, T) -> bool, s: seq<T>, t: seq<T>, lo: int, l: int, m: int, hi: int, p: T)
    requires 0 <= lo <= l <= m <= hi <= |s|
    requires AllLess(lt, s, lo, l, p) && AllEqual(lt, s, l, m, p) && NoneLess(lt, s, m, hi, p)
    requires Permuted(s, t, lo, l) || Permuted(s, t, m, hi)
    ensures |t| == |s| && AllLess(lt, t, lo, l, p) && AllEqual(lt, t, l, m, p) && NoneLess(lt, t, m, hi, p)
    ensures Permuted(s, t, lo, hi)
  {
    if Permuted(s, t, lo, l) {
      AllLessKept(lt, s, t, lo, l, p);
    } else {
      NoneLessKept(lt, s, t, m, hi, p);
    }
  }

  /** The recursive sort; its two calls work on ranges that do not meet. */
  method QuickSort<T(!new)>(a: array<T>, lo: int, hi: int, lt: (T, T) -> bool)
    requires StrictWeak(lt) && 0 <= lo <= hi <= a.Length
    modifies a
    ensures Permuted(old(a[..]), a[..], lo, hi) && Sorted(lt, a[..], lo, hi)
    decreases hi - lo
  {
    var n := hi - lo;
    if n < ISORT {
      InsertionSort(a, lo, hi, lt);
      return;
    }
    ghost var s0 := a[..];
    var p := ChooseMedian(a, lo, hi, lt);
    var l, m := Partition(a, lo, hi, p, lt);
    ghost var s1 := a[..];
    QuickSort(a, lo, l, lt);
    ghost var s2 := a[..];
    PartsKept(lt, s1, s2, lo, l, m, hi, p);
    QuickSort(a, m, hi, lt);
    PartsKept(lt, s2, a[..], lo, l, m, hi, p);
    SplitEqual(lt, a[..], lo, l, m, hi, p);
  }

  method ChooseMedian<T(!new)>(a: array<T>, lo: int, hi: int, lt: (T, T) -> bool) returns (p: T)
    requires StrictWeak(lt) && 0 <= lo <= hi <= a.Length && ISORT <= hi - lo
    ensures Pivotal(lt, a[..], lo, hi, p)
    ensures var n := hi - lo; IsMedian(lt, p, a[lo + n / 4], a[lo + n / 2], a[lo + (3 * n) / 4])
  {
    var n := hi - lo;
    var i, j, k := lo + n / 4, lo + n / 2, lo + (3 * n) / 4;
    p := Median(a[i], a[j], a[k], lt);
    MedianOf(a[i], a[j], a[k], lt);
    ghost var s := a[..];
    assert s[i] == p || s[j] == p || s[k] == p;
    if !lt(p, s[i]) && !lt(p, s[j]) {
      CountAtLeastTwo(lt, s, lo, hi, p, i, j);
    } else if !lt(p, s[i]) && !lt(p, s[k]) {
      CountAtLeastTwo(lt, s, lo, hi, p, i, k);
    } else {
      CountAtLeastTwo(lt, s, lo, hi, p, j, k);
    }
  }
}
