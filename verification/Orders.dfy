/** Strict weak orderings, permutations of ranges, and sortedness. */
module Orders {

  predicate Tri<T>(a: T, b: T, c: T) { true }

  /** A comparison as the sorting algorithms expect it: asymmetric, and "not less" is transitive. */
  ghost predicate StrictWeak<T(!new)>(lt: (T, T) -> bool) {
    && (forall a, b {:trigger Tri(a, b, a)} :: Tri(a, b, a) ==> !(lt(a, b) && lt(b, a)))
    && (forall a, b, c {:trigger Tri(a, b, c)} :: Tri(a, b, c) && !lt(a, b) && !lt(b, c) ==> !lt(a, c))
  }

  lemma Asymmetric<T(!new)>(lt: (T, T) -> bool, a: T, b: T)
    requires StrictWeak(lt)
    ensures !(lt(a, b) && lt(b, a))
  {
    assert Tri(a, b, a);
  }

  lemma Irreflexive<T(!new)>(lt: (T, T) -> bool, a: T)
    requires StrictWeak(lt)
    ensures !lt(a, a)
  {
    assert Tri(a, a, a);
  }

  /** "Not less" is transitive. */
  lemma NotLessTrans<T(!new)>(lt: (T, T) -> bool, a: T, b: T, c: T)
    requires StrictWeak(lt) && !lt(a, b) && !lt(b, c)
    ensures !lt(a, c)
  {
    assert Tri(a, b, c);
  }

  /** a < b and b <= c give a < c. */
  lemma LessTrans<T(!new)>(lt: (T, T) -> bool, a: T, b: T, c: T)
    requires StrictWeak(lt) && lt(a, b) && !lt(c, b)
    ensures lt(a, c) && !lt(c, a)
  {
    assert Tri(a, c, b) && Tri(a, c, a);
  }

  /** a <= b and b < c give a < c. */
  lemma LessTransRight<T(!new)>(lt: (T, T) -> bool, a: T, b: T, c: T)
    requires StrictWeak(lt) && !lt(b, a) && lt(b, c)
    ensures lt(a, c) && !lt(c, a)
  {
    assert Tri(b, a, c) && Tri(a, c, a);
  }

  /** m is one of x, y and z; two of them are not greater than it and two not less. */
  ghost predicate IsMedian<T(!new)>(lt: (T, T) -> bool, m: T, x: T, y: T, z: T) {
    && (m == x || m == y || m == z)
    && ((!lt(m, x) && !lt(m, y)) || (!lt(m, x) && !lt(m, z)) || (!lt(m, y) && !lt(m, z)))
    && ((!lt(x, m) && !lt(y, m)) || (!lt(x, m) && !lt(z, m)) || (!lt(y, m) && !lt(z, m)))
  }

  /** u, v, w are x, y, z in one of their six orders. */
  predicate SameThree<T(==)>(x: T, y: T, z: T, u: T, v: T, w: T) {
    || (u == x && ((v == y && w == z) || (v == z && w == y)))
    || (u == y && ((v == x && w == z) || (v == z && w == x)))
    || (u == z && ((v == x && w == y) || (v == y && w == x)))
  }

  /** The middle one of three elements in order is a median of them. */
  lemma MiddleIsMedian<T(!new)>(lt: (T, T) -> bool, x: T, y: T, z: T, u: T, v: T, w: T)
    requires StrictWeak(lt) && SameThree(x, y, z, u, v, w) && !lt(v, u) && !lt(w, v)
    ensures IsMedian(lt, v, x, y, z)
  {
    Irreflexive(lt, v);
  }

  // ----- ranges -----

  /** Cells lo..hi-1 of t are in order. */
  ghost predicate Sorted<T(!new)>(lt: (T, T) -> bool, s: seq<T>, lo: int, hi: int)
    requires 0 <= lo <= hi <= |s|
  {
    forall i, k :: lo <= i < k < hi ==> !lt(s[k], s[i])
  }

  /** t arises from s by permuting cells lo..hi-1. */
  ghost predicate Permuted<T(!new)>(s: seq<T>, t: seq<T>, lo: int, hi: int) {
    && |s| == |t| && 0 <= lo <= hi <= |s|
    && multiset(s) == multiset(t)
    && (forall k :: 0 <= k < |s| && !(lo <= k < hi) ==> s[k] == t[k])
  }

  lemma PermutedSelf<T(!new)>(s: seq<T>, lo: int, hi: int)
    requires 0 <= lo <= hi <= |s|
    ensures Permuted(s, s, lo, hi)
  {
  }

  lemma PermutedTrans<T(!new)>(s: seq<T>, t: seq<T>, u: seq<T>, lo: int, hi: int)
    requires Permuted(s, t, lo, hi) && Permuted(t, u, lo, hi)
    ensures Permuted(s, u, lo, hi)
  {
  }

  lemma PermutedWiden<T(!new)>(s: seq<T>, t: seq<T>, lo: int, hi: int, lo': int, hi': int)
    requires Permuted(s, t, lo, hi) && 0 <= lo' <= lo && hi <= hi' <= |s|
    ensures Permuted(s, t, lo', hi')
  {
  }

  lemma SplitBag<T>(s: seq<T>, lo: int, hi: int)
    requires 0 <= lo <= hi <= |s|
    ensures multiset(s) == multiset(s[..lo]) + multiset(s[lo..hi]) + multiset(s[hi..])
    ensures multiset(s[lo..hi]) == multiset(s) - multiset(s[..lo]) - multiset(s[hi..])
  {
    assert s == s[..lo] + s[lo..hi] + s[hi..];
  }

  /** A permuted range holds the same elements. */
  lemma PermutedRange<T(!new)>(s: seq<T>, t: seq<T>, lo: int, hi: int)
    requires Permuted(s, t, lo, hi)
    ensures multiset(s[lo..hi]) == multiset(t[lo..hi])
  {
    SplitBag(s, lo, hi);
    SplitBag(t, lo, hi);
    assert s[..lo] == t[..lo] && s[hi..] == t[hi..];
  }

  /** Every cell of the permuted range holds an element that was in the range. */
  lemma PermutedFrom<T(!new)>(s: seq<T>, t: seq<T>, lo: int, hi: int, k: int) returns (i: int)
    requires Permuted(s, t, lo, hi) && lo <= k < hi
    ensures lo <= i < hi && s[i] == t[k]
  {
    PermutedRange(s, t, lo, hi);
    assert t[lo..hi][k - lo] in multiset(s[lo..hi]);
    var m :| 0 <= m < hi - lo && s[lo..hi][m] == t[lo..hi][k - lo];
    i := lo + m;
  }

  lemma SwapPermutes<T(!new)>(s: seq<T>, t: seq<T>, i: int, k: int, lo: int, hi: int)
    requires 0 <= lo <= i < hi <= |s| && lo <= k < hi
    requires t == s[i := s[k]][k := s[i]]
    ensures Permuted(s, t, lo, hi)
  {
  }

  // ----- bounds relative to a pivot -----

  ghost predicate AllLess<T(!new)>(lt: (T, T) -> bool, s: seq<T>, lo: int, hi: int, p: T)
    requires 0 <= lo && hi <= |s|
  {
    forall k :: lo <= k < hi ==> lt(s[k], p)
  }

  ghost predicate NoneLess<T(!new)>(lt: (T, T) -> bool, s: seq<T>, lo: int, hi: int, p: T)
    requires 0 <= lo && hi <= |s|
  {
    forall k :: lo <= k < hi ==> !lt(s[k], p)
  }

  /** No cell exceeds p. */
  ghost predicate NoneMore<T(!new)>(lt: (T, T) -> bool, s: seq<T>, lo: int, hi: int, p: T)
    requires 0 <= lo && hi <= |s|
  {
    forall k :: lo <= k < hi ==> !lt(p, s[k])
  }

  lemma NoneLessKept<T(!new)>(lt: (T, T) -> bool, s: seq<T>, t: seq<T>, lo: int, hi: int, p: T)
    requires Permuted(s, t, lo, hi) && NoneLess(lt, s, lo, hi, p)
    ensures NoneLess(lt, t, lo, hi, p)
  {
    forall k | lo <= k < hi
      ensures !lt(t[k], p)
    {
      var i := PermutedFrom(s, t, lo, hi, k);
    }
  }

  lemma AllLessKept<T(!new)>(lt: (T, T) -> bool, s: seq<T>, t: seq<T>, lo: int, hi: int, p: T)
    requires Permuted(s, t, lo, hi) && AllLess(lt, s, lo, hi, p)
    ensures AllLess(lt, t, lo, hi, p)
  {
    forall k | lo <= k < hi
      ensures lt(t[k], p)
    {
      var i := PermutedFrom(s, t, lo, hi, k);
    }
  }

  lemma NoneMoreKept<T(!new)>(lt: (T, T) -> bool, s: seq<T>, t: seq<T>, lo: int, hi: int, p: T)
    requires Permuted(s, t, lo, hi) && NoneMore(lt, s, lo, hi, p)
    ensures NoneMore(lt, t, lo, hi, p)
  {
    forall k | lo <= k < hi
      ensures !lt(p, t[k])
    {
      var i := PermutedFrom(s, t, lo, hi, k);
    }
  }

  /** Two sorted ranges with a pivot between them make one sorted range. */
  lemma SortedJoin<T(!new)>(lt: (T, T) -> bool, s: seq<T>, lo: int, mid: int, hi: int)
    requires StrictWeak(lt) && 0 <= lo <= mid < hi <= |s|
    requires Sorted(lt, s, lo, mid) && Sorted(lt, s, mid + 1, hi)
    requires NoneMore(lt, s, lo, mid, s[mid]) && NoneLess(lt, s, mid + 1, hi, s[mid])
    ensures Sorted(lt, s, lo, hi)
  {
    forall i, k | lo <= i < k < hi
      ensures !lt(s[k], s[i])
    {
      if i < mid < k {
        NotLessTrans(lt, s[k], s[mid], s[i]);
      }
    }
  }

  /** The number of cells in lo..hi-1 that are less than p. */
  function CountLess<T(!new)>(lt: (T, T) -> bool, s: seq<T>, lo: int, hi: int, p: T): nat
    requires 0 <= lo && hi <= |s|
    decreases hi - lo
  {
    if lo >= hi then 0 else CountLess(lt, s, lo, hi - 1, p) + (if lt(s[hi - 1], p) then 1 else 0)
  }

  lemma {:induction false} CountLessSame<T(!new)>(lt: (T, T) -> bool, s: seq<T>, t: seq<T>, lo: int, hi: int, p: T)
    requires 0 <= lo && hi <= |s| && hi <= |t| && forall x :: lo <= x < hi ==> s[x] == t[x]
    ensures CountLess(lt, s, lo, hi, p) == CountLess(lt, t, lo, hi, p)
    decreases hi - lo
  {
    if lo < hi {
      CountLessSame(lt, s, t, lo, hi - 1, p);
    }
  }

  ghost function LessCells<T(!new)>(lt: (T, T) -> bool, s: seq<T>, lo: int, hi: int, p: T): set<int>
    requires 0 <= lo && hi <= |s|
  {
    set i | lo <= i < hi && lt(s[i], p)
  }

  lemma LessCellsNext<T(!new)>(lt: (T, T) -> bool, s: seq<T>, lo: int, hi: int, p: T)
    requires 0 <= lo <= hi <= |s|
    ensures LessCells(lt, s, lo, lo, p) == {}
    ensures hi !in LessCells(lt, s, lo, hi, p)
    ensures hi < |s| ==> LessCells(lt, s, lo, hi + 1, p) == LessCells(lt, s, lo, hi, p) + (if lt(s[hi], p) then {hi} else {})
  {
  }

  /** It counts each cell once. */
  lemma {:induction false} CountLessIs<T(!new)>(lt: (T, T) -> bool, s: seq<T>, lo: int, hi: int, p: T)
    requires 0 <= lo <= hi <= |s|
    ensures CountLess(lt, s, lo, hi, p) == |LessCells(lt, s, lo, hi, p)|
    decreases hi - lo
  {
    hide LessCells;
    LessCellsNext(lt, s, lo, lo, p);
    if lo < hi {
      CountLessIs(lt, s, lo, hi - 1, p);
      LessCellsNext(lt, s, lo, hi - 1, p);
    }
  }

  /** The elements of s that are less than p. */
  ghost function LessBag<T(!new)>(lt: (T, T) -> bool, s: seq<T>, lo: int, hi: int, p: T): multiset<T>
    requires 0 <= lo && hi <= |s|
    decreases hi - lo
  {
    if lo >= hi then multiset{}
    else LessBag(lt, s, lo, hi - 1, p) + (if lt(s[hi - 1], p) then multiset{s[hi - 1]} else multiset{})
  }

  lemma {:induction false} LessBagOf<T(!new)>(lt: (T, T) -> bool, s: seq<T>, lo: int, hi: int, p: T, x: T)
    requires 0 <= lo <= hi <= |s|
    ensures LessBag(lt, s, lo, hi, p)[x] == if lt(x, p) then multiset(s[lo..hi])[x] else 0
    decreases hi - lo
  {
    if lo < hi {
      LessBagOf(lt, s, lo, hi - 1, p, x);
      BagNext(s, lo, hi, x);
    }
  }

  lemma BagNext<T>(s: seq<T>, lo: int, hi: int, x: T)
    requires 0 <= lo < hi <= |s|
    ensures multiset(s[lo..hi])[x] == multiset(s[lo..hi - 1])[x] + (if s[hi - 1] == x then 1 else 0)
  {
    assert s[lo..hi] == s[lo..hi - 1] + [s[hi - 1]];
  }

  lemma {:induction false} LessBagSize<T(!new)>(lt: (T, T) -> bool, s: seq<T>, lo: int, hi: int, p: T)
    requires 0 <= lo <= hi <= |s|
    ensures |LessBag(lt, s, lo, hi, p)| == CountLess(lt, s, lo, hi, p)
    decreases hi - lo
  {
    if lo < hi {
      LessBagSize(lt, s, lo, hi - 1, p);
    }
  }

  /** Counting does not depend on the order of the cells. */
  lemma CountPermuted<T(!new)>(lt: (T, T) -> bool, s: seq<T>, t: seq<T>, lo: int, hi: int, p: T)
    requires Permuted(s, t, lo, hi)
    ensures CountLess(lt, s, lo, hi, p) == CountLess(lt, t, lo, hi, p)
  {
    PermutedRange(s, t, lo, hi);
    forall x: T
      ensures LessBag(lt, s, lo, hi, p)[x] == LessBag(lt, t, lo, hi, p)[x]
    {
      LessBagOf(lt, s, lo, hi, p, x);
      LessBagOf(lt, t, lo, hi, p, x);
    }
    assert LessBag(lt, s, lo, hi, p) == LessBag(lt, t, lo, hi, p);
    LessBagSize(lt, s, lo, hi, p);
    LessBagSize(lt, t, lo, hi, p);
  }

  /** A range split at mid counts mid - lo. */
  lemma {:induction false} CountSplit<T(!new)>(lt: (T, T) -> bool, s: seq<T>, lo: int, mid: int, hi: int, p: T)
    requires 0 <= lo <= mid <= hi <= |s|
    requires AllLess(lt, s, lo, mid, p) && NoneLess(lt, s, mid, hi, p)
    ensures CountLess(lt, s, lo, hi, p) == mid - lo
    decreases hi - lo
  {
    if lo < hi {
      CountSplit(lt, s, lo, if mid == hi then hi - 1 else mid, hi - 1, p);
    }
  }

  // ----- where scans stop -----

  /** How many cells may go over: a scan from the right lists those not greater than the pivot, one from
      the left those not less. */
  function Duplicates<T(!new)>(lt: (T, T) -> bool, u: seq<T>, lo: int, hi: int, p: T, right: bool): nat
    requires 0 <= lo && hi <= |u|
  {
    CountLess((x, y) => if right then !lt(y, x) else !lt(x, y), u, lo, hi, p)
  }

  lemma DuplicatesNone<T(!new)>(lt: (T, T) -> bool, u: seq<T>, lo: int, p: T, right: bool)
    requires 0 <= lo <= |u|
    ensures Duplicates(lt, u, lo, lo, p, right) == 0
  {
  }

  lemma DuplicatesNext<T(!new)>(lt: (T, T) -> bool, u: seq<T>, lo: int, q: int, p: T, right: bool)
    requires 0 <= lo <= q < |u|
    ensures Duplicates(lt, u, lo, q + 1, p, right) ==
            Duplicates(lt, u, lo, q, p, right) + (if right then (if !lt(p, u[q]) then 1 else 0) else if !lt(u[q], p) then 1 else 0)
  {
  }

  /** The same at the lower end. */
  lemma DuplicatesBefore<T(!new)>(lt: (T, T) -> bool, u: seq<T>, q: int, hi: int, p: T, right: bool)
    requires 0 <= q < hi <= |u|
    ensures Duplicates(lt, u, q, hi, p, right) ==
            Duplicates(lt, u, q + 1, hi, p, right) + (if right then (if !lt(p, u[q]) then 1 else 0) else if !lt(u[q], p) then 1 else 0)
    decreases hi
  {
    if q + 1 < hi {
      DuplicatesBefore(lt, u, q, hi - 1, p, right);
    } else {
      assert Duplicates(lt, u, q, q, p, right) == 0;
    }
  }

  lemma {:induction false} DuplicatesSplit<T(!new)>(lt: (T, T) -> bool, u: seq<T>, lo: int, mid: int, hi: int, p: T, right: bool)
    requires 0 <= lo <= mid <= hi <= |u|
    ensures Duplicates(lt, u, lo, hi, p, right) == Duplicates(lt, u, lo, mid, p, right) + Duplicates(lt, u, mid, hi, p, right)
    decreases hi
  {
    if mid < hi {
      DuplicatesSplit(lt, u, lo, mid, hi - 1, p, right);
      DuplicatesNext(lt, u, lo, hi - 1, p, right);
      DuplicatesNext(lt, u, mid, hi - 1, p, right);
    } else {
      DuplicatesNone(lt, u, mid, p, right);
    }
  }

  lemma {:induction false} DuplicatesSame<T(!new)>(lt: (T, T) -> bool, u: seq<T>, w: seq<T>, lo: int, hi: int, p: T, right: bool)
    requires 0 <= lo <= hi && hi <= |u| && hi <= |w| && forall x :: lo <= x < hi ==> u[x] == w[x]
    ensures Duplicates(lt, u, lo, hi, p, right) == Duplicates(lt, w, lo, hi, p, right)
    decreases hi
  {
    if lo < hi {
      DuplicatesSame(lt, u, w, lo, hi - 1, p, right);
      DuplicatesNext(lt, u, lo, hi - 1, p, right);
      DuplicatesNext(lt, w, lo, hi - 1, p, right);
    } else {
      DuplicatesNone(lt, u, lo, p, right);
      DuplicatesNone(lt, w, lo, p, right);
    }
  }

  /** Cells that belong on the scan's own side do not count. */
  lemma {:induction false} DuplicatesPassed<T(!new)>(lt: (T, T) -> bool, u: seq<T>, lo: int, hi: int, p: T, right: bool)
    requires 0 <= lo <= hi <= |u| && forall x :: lo <= x < hi ==> if right then lt(p, u[x]) else lt(u[x], p)
    ensures Duplicates(lt, u, lo, hi, p, right) == 0
    decreases hi
  {
    if lo < hi {
      DuplicatesPassed(lt, u, lo, hi - 1, p, right);
      DuplicatesNext(lt, u, lo, hi - 1, p, right);
    } else {
      DuplicatesNone(lt, u, lo, p, right);
    }
  }
}
