/** The branchless right partition of pdqsort.h: two blocks of offsets are filled with the
    positions of misplaced elements, then exchanged pairwise or by one cyclic move. */
module PdqBranchless {
  import opened Orders
  import opened PdqPartition

  // ----- marked positions of a block -----

  /** Position k of a block: counted up from base on the left, down from base on the right. */
  function Cell(right: bool, base: int, k: int): int {
    if right then base - 1 - k else base + k
  }

  ghost predicate Fits<T(!new)>(s: seq<T>, right: bool, base: int, size: int) {
    if right then size <= base <= |s| else 0 <= base <= |s| - size
  }

  /** On the left an element not less than the pivot is misplaced, on the right one less than it. */
  ghost predicate Wrong<T(!new)>(lt: (T, T) -> bool, s: seq<T>, p: T, right: bool, base: int, k: int)
    requires 0 <= Cell(right, base, k) < |s|
  {
    lt(s[Cell(right, base, k)], p) == right
  }

  /** The misplaced positions of a block, ascending. */
  ghost function Marks<T(!new)>(lt: (T, T) -> bool, s: seq<T>, p: T, right: bool, base: int, size: int): (m: seq<int>)
    requires Fits(s, right, base, size)
    ensures forall j :: 0 <= j < |m| ==> 0 <= m[j] < size
    decreases size
  {
    if size <= 0 then []
    else Marks(lt, s, p, right, base, size - 1) + (if Wrong(lt, s, p, right, base, size - 1) then [size - 1] else [])
  }

  lemma {:induction false} MarksOrder<T(!new)>(lt: (T, T) -> bool, s: seq<T>, p: T, right: bool, base: int, size: int)
    requires Fits(s, right, base, size)
    ensures var m := Marks(lt, s, p, right, base, size);
            && (forall j :: 0 <= j < |m| ==> j <= m[j] < size && Wrong(lt, s, p, right, base, m[j]))
            && (forall i, j :: 0 <= i < j < |m| ==> m[i] < m[j])
            && |m| <= (if size < 0 then 0 else size)
    decreases size
  {
    hide Marks;
    MarksStep(lt, s, p, right, base, size);
    if size > 0 {
      MarksOrder(lt, s, p, right, base, size - 1);
    }
  }

  lemma MarksStep<T(!new)>(lt: (T, T) -> bool, s: seq<T>, p: T, right: bool, base: int, size: int)
    requires Fits(s, right, base, size)
    ensures size <= 0 ==> Marks(lt, s, p, right, base, size) == []
    ensures size > 0 ==>
              Marks(lt, s, p, right, base, size) ==
              Marks(lt, s, p, right, base, size - 1) + (if Wrong(lt, s, p, right, base, size - 1) then [size - 1] else [])
  {
  }

  /** A block is in order exactly when it has no mark. */
  lemma {:induction false} MarksNone<T(!new)>(lt: (T, T) -> bool, s: seq<T>, p: T, right: bool, base: int, size: int)
    requires Fits(s, right, base, size)
    ensures Marks(lt, s, p, right, base, size) == [] <==>
            forall k :: 0 <= k < size ==> !Wrong(lt, s, p, right, base, k)
    decreases size
  {
    hide Marks;
    MarksStep(lt, s, p, right, base, size);
    if size > 0 {
      MarksNone(lt, s, p, right, base, size - 1);
    }
  }

  lemma NoMarksLeft<T(!new)>(lt: (T, T) -> bool, s: seq<T>, p: T, first: int, last: int)
    requires 0 <= first <= last <= |s| && Marks(lt, s, p, false, first, last - first) == []
    ensures AllLess(lt, s, first, last, p)
  {
    MarksNone(lt, s, p, false, first, last - first);
    forall k | first <= k < last
      ensures lt(s[k], p)
    {
      assert !Wrong(lt, s, p, false, first, k - first);
    }
  }

  lemma NoMarksRight<T(!new)>(lt: (T, T) -> bool, s: seq<T>, p: T, first: int, last: int)
    requires 0 <= first <= last <= |s| && Marks(lt, s, p, true, last, last - first) == []
    ensures NoneLess(lt, s, first, last, p)
  {
    MarksNone(lt, s, p, true, last, last - first);
    forall k | first <= k < last
      ensures !lt(s[k], p)
    {
      assert !Wrong(lt, s, p, true, last, last - 1 - k);
    }
  }

  lemma {:induction false} MarksSame<T(!new)>(lt: (T, T) -> bool, s: seq<T>, t: seq<T>, p: T, right: bool, base: int, size: int)
    requires Fits(s, right, base, size) && |s| == |t|
    requires forall k :: 0 <= k < size ==> s[Cell(right, base, k)] == t[Cell(right, base, k)]
    ensures Marks(lt, s, p, right, base, size) == Marks(lt, t, p, right, base, size)
    decreases size
  {
    if size > 0 {
      MarksSame(lt, s, t, p, right, base, size - 1);
    }
  }

  /** Putting right the first num marked positions removes exactly those marks. */
  lemma {:induction false} MarksCleared<T(!new)>(lt: (T, T) -> bool, s: seq<T>, t: seq<T>, p: T,
                                                 right: bool, base: int, size: int, num: int)
    requires Fits(s, right, base, size) && |s| == |t|
    requires 0 <= num <= |Marks(lt, s, p, right, base, size)|
    requires var m := Marks(lt, s, p, right, base, size);
             && (forall j :: 0 <= j < num ==> !Wrong(lt, t, p, right, base, m[j]))
             && (forall j :: num <= j < |m| ==> Wrong(lt, t, p, right, base, m[j]))
    requires forall k :: 0 <= k < size && !Wrong(lt, s, p, right, base, k) ==> !Wrong(lt, t, p, right, base, k)
    ensures Marks(lt, t, p, right, base, size) == Marks(lt, s, p, right, base, size)[num..]
    decreases size
  {
    hide Marks;
    MarksStep(lt, s, p, right, base, size);
    MarksStep(lt, t, p, right, base, size);
    if size > 0 {
      var m := Marks(lt, s, p, right, base, size);
      var rest := Marks(lt, s, p, right, base, size - 1);
      assert forall j :: 0 <= j < |rest| ==> m[j] == rest[j];
      assert Wrong(lt, s, p, right, base, size - 1) ==> m[|rest|] == size - 1;
      MarksCleared(lt, s, t, p, right, base, size - 1, if num <= |rest| then num else num - 1);
    }
  }

  /** Putting right the last marked position with the block's last element shortens both. */
  lemma {:induction false} MarksDrop<T(!new)>(lt: (T, T) -> bool, s: seq<T>, t: seq<T>, p: T,
                                              right: bool, base: int, size: int)
    requires Fits(s, right, base, size) && |s| == |t|
    requires Marks(lt, s, p, right, base, size) != []
    requires var m := Marks(lt, s, p, right, base, size);
             && size > 0
             && (m[|m| - 1] < size - 1 ==> !Wrong(lt, t, p, right, base, m[|m| - 1]))
             && (forall k :: 0 <= k < size - 1 && k != m[|m| - 1] ==> t[Cell(right, base, k)] == s[Cell(right, base, k)])
    ensures var m := Marks(lt, s, p, right, base, size);
            Marks(lt, t, p, right, base, size - 1) == m[..|m| - 1]
    decreases size
  {
    hide Marks;
    MarksStep(lt, s, p, right, base, size);
    var m := Marks(lt, s, p, right, base, size);
    var rest := Marks(lt, s, p, right, base, size - 1);
    if Wrong(lt, s, p, right, base, size - 1) {
      MarksSame(lt, s, t, p, right, base, size - 1);
      assert m[..|m| - 1] == rest;
    } else {
      MarksStep(lt, s, p, right, base, size - 1);
      MarksStep(lt, t, p, right, base, size - 1);
      MarksDrop(lt, s, t, p, right, base, size - 1);
    }
  }

  // ----- filling an offset block -----

  /** off[start .. start + num) holds the marks m, each plus d. */
  ghost predicate Holds(off: seq<int>, start: int, num: int, m: seq<int>, d: int) {
    && 0 <= start && 0 <= num == |m| && start + num <= |off|
    && (forall j :: 0 <= j < num ==> off[start + j] == m[j] + d)
  }

  /** The scan of a left block writes every position but advances only past misplaced ones. */
  method FillLeft<T(!new)>(a: array<T>, first: int, size: int, pivot: T, lt: (T, T) -> bool, buf: array<int>)
    returns (num: int)
    requires 0 <= first <= a.Length - size && first <= a.Length && size <= buf.Length && (buf as object) != a
    modifies buf
    ensures Holds(buf[..], 0, num, Marks(lt, a[..], pivot, false, first, size), 0)
  {
    num := 0;
    var it, i := first, 0;
    while i < size
      invariant 0 <= num <= i && (i <= size || i == 0) && it == first + i
      invariant a[..] == old(a[..])
      invariant Holds(buf[..], 0, num, Marks(lt, a[..], pivot, false, first, i), 0)
    {
      buf[num] := i;
      i := i + 1;
      num := num + (if !lt(a[it], pivot) then 1 else 0);
      it := it + 1;
    }
  }

  /** The scan of a right block; its offsets count from one. */
  method FillRight<T(!new)>(a: array<T>, last: int, size: int, pivot: T, lt: (T, T) -> bool, buf: array<int>)
    returns (num: int)
    requires size <= last <= a.Length && 0 <= last && size <= buf.Length && (buf as object) != a
    modifies buf
    ensures Holds(buf[..], 0, num, Marks(lt, a[..], pivot, true, last, size), 1)
  {
    num := 0;
    var it, i := last, 0;
    while i < size
      invariant 0 <= num <= i && (i <= size || i == 0) && it == last - i
      invariant a[..] == old(a[..])
      invariant Holds(buf[..], 0, num, Marks(lt, a[..], pivot, true, last, i), 1)
    {
      i := i + 1;
      buf[num] := i;
      it := it - 1;
      num := num + (if lt(a[it], pivot) then 1 else 0);
    }
  }

  // ----- exchanging marked elements -----

  /** The cells that the j-th offsets name. */
  function LeftAt(first: int, ls: seq<int>, j: int): int
    requires 0 <= j < |ls|
  {
    first + ls[j]
  }

  function RightAt(last: int, rs: seq<int>, j: int): int
    requires 0 <= j < |rs|
  {
    last - rs[j]
  }

  /** Offsets ls and rs ascend and name cells of the disjoint blocks lo..mid-1 and mid..hi-1. */
  ghost predicate Apart(first: int, last: int, ls: seq<int>, rs: seq<int>, lo: int, mid: int, hi: int) {
    && |ls| == |rs| && lo <= mid <= hi
    && (forall j :: 0 <= j < |ls| ==> lo <= LeftAt(first, ls, j) < mid)
    && (forall j :: 0 <= j < |rs| ==> mid <= RightAt(last, rs, j) < hi)
    && (forall i, j :: 0 <= i < j < |ls| ==> ls[i] < ls[j])
    && (forall i, j :: 0 <= i < j < |rs| ==> rs[i] < rs[j])
  }

  function Partner(j: int, num: int, swaps: bool): int {
    if swaps then j else if j + 1 < num then j + 1 else 0
  }

  /** Cell x is none of the first num marked cells. */
  ghost predicate Untouched(x: int, first: int, last: int, ls: seq<int>, rs: seq<int>, num: int)
    requires num <= |ls| == |rs|
  {
    forall j :: 0 <= j < num ==> x != LeftAt(first, ls, j) && x != RightAt(last, rs, j)
  }

  /** The left cells took the right elements in order; the right cells took the left elements,
      in order after swaps, shifted by one after the cyclic move. */
  ghost predicate Exchanged<T(!new)>(s: seq<T>, t: seq<T>, first: int, last: int, ls: seq<int>, rs: seq<int>,
                                     swaps: bool, lo: int, mid: int, hi: int)
    requires Apart(first, last, ls, rs, lo, mid, hi) && 0 <= lo <= hi <= |s|
  {
    && Permuted(s, t, lo, hi)
    && (forall j {:trigger t[LeftAt(first, ls, j)]} :: 0 <= j < |ls| ==> t[LeftAt(first, ls, j)] == s[RightAt(last, rs, j)])
    && (forall j {:trigger t[RightAt(last, rs, j)]} :: 0 <= j < |rs| ==> t[RightAt(last, rs, j)] == s[LeftAt(first, ls, Partner(j, |ls|, swaps))])
    && (forall x {:trigger Untouched(x, first, last, ls, rs, |ls|)} :: 0 <= x < |s| && Untouched(x, first, last, ls, rs, |ls|) ==> t[x] == s[x])
  }

  /** The first i pairs are exchanged. */
  ghost predicate PairsDone<T(!new)>(s: seq<T>, t: seq<T>, first: int, last: int, ls: seq<int>, rs: seq<int>,
                                     lo: int, mid: int, hi: int, i: int)
    requires Apart(first, last, ls, rs, lo, mid, hi) && 0 <= lo <= hi <= |s| && 0 <= i <= |ls|
  {
    && Permuted(s, t, lo, hi)
    && (forall j {:trigger t[LeftAt(first, ls, j)]} :: 0 <= j < i ==> t[LeftAt(first, ls, j)] == s[RightAt(last, rs, j)])
    && (forall j {:trigger t[RightAt(last, rs, j)]} :: 0 <= j < i ==> t[RightAt(last, rs, j)] == s[LeftAt(first, ls, j)])
    && (forall x {:trigger Untouched(x, first, last, ls, rs, i)} :: 0 <= x < |s| && Untouched(x, first, last, ls, rs, i) ==> t[x] == s[x])
  }

  lemma PairStep<T(!new)>(s: seq<T>, t: seq<T>, u: seq<T>, first: int, last: int, ls: seq<int>, rs: seq<int>,
                          lo: int, mid: int, hi: int, i: int)
    requires Apart(first, last, ls, rs, lo, mid, hi) && 0 <= lo <= hi <= |s| && 0 <= i < |ls|
    requires PairsDone(s, t, first, last, ls, rs, lo, mid, hi, i)
    requires u == t[LeftAt(first, ls, i) := t[RightAt(last, rs, i)]][RightAt(last, rs, i) := t[LeftAt(first, ls, i)]]
    ensures PairsDone(s, u, first, last, ls, rs, lo, mid, hi, i + 1)
  {
    var l, r := LeftAt(first, ls, i), RightAt(last, rs, i);
    assert Untouched(l, first, last, ls, rs, i) && Untouched(r, first, last, ls, rs, i);
    SwapPermutes(t, u, l, r, lo, hi);
    forall x | 0 <= x < |s| && Untouched(x, first, last, ls, rs, i + 1)
      ensures u[x] == s[x]
    {
      assert Untouched(x, first, last, ls, rs, i) && x != l && x != r;
    }
  }

  method SwapPairs<T(!new)>(a: array<T>, first: int, last: int, ls: seq<int>, rs: seq<int>,
                            ghost lo: int, ghost mid: int, ghost hi: int)
    requires 0 <= lo <= hi <= a.Length && Apart(first, last, ls, rs, lo, mid, hi)
    modifies a
    ensures Exchanged(old(a[..]), a[..], first, last, ls, rs, true, lo, mid, hi)
  {
    hide PairsDone, Exchanged;
    var i := 0;
    PairsStart(a[..], first, last, ls, rs, lo, mid, hi);
    while i < |ls|
      invariant 0 <= i <= |ls|
      invariant PairsDone(old(a[..]), a[..], first, last, ls, rs, lo, mid, hi, i)
    {
      var l, r := LeftAt(first, ls, i), RightAt(last, rs, i);
      PairStep(old(a[..]), a[..], a[..][l := a[r]][r := a[l]], first, last, ls, rs, lo, mid, hi, i);
      a[l], a[r] := a[r], a[l];
      i := i + 1;
    }
    PairsEnd(old(a[..]), a[..], first, last, ls, rs, lo, mid, hi);
  }

  lemma PairsStart<T(!new)>(s: seq<T>, first: int, last: int, ls: seq<int>, rs: seq<int>, lo: int, mid: int, hi: int)
    requires 0 <= lo <= hi <= |s| && Apart(first, last, ls, rs, lo, mid, hi)
    ensures PairsDone(s, s, first, last, ls, rs, lo, mid, hi, 0)
  {
  }

  lemma PairsEnd<T(!new)>(s: seq<T>, t: seq<T>, first: int, last: int, ls: seq<int>, rs: seq<int>, lo: int, mid: int, hi: int)
    requires 0 <= lo <= hi <= |s| && Apart(first, last, ls, rs, lo, mid, hi)
    requires PairsDone(s, t, first, last, ls, rs, lo, mid, hi, |ls|)
    ensures Exchanged(s, t, first, last, ls, rs, true, lo, mid, hi)
  {
  }

  /** Moving a hole through three cells permutes the contents with the held element put back. */
  lemma HoleMove<T(!new)>(s: seq<T>, r: int, l: int, r': int, tmp: T, lo: int, hi: int)
    requires 0 <= lo <= r < hi <= |s| && lo <= l < hi && lo <= r' < hi && r != l && l != r' && r != r'
    ensures Permuted(s[r := tmp], s[r := s[l]][l := s[r']][r' := tmp], lo, hi)
  {
    var u := s[r := tmp];
    var v := u[r := u[l]][l := u[r]];
    SwapPermutes(u, v, r, l, lo, hi);
    SwapPermutes(v, v[l := v[r']][r' := v[l]], l, r', lo, hi);
    assert v[l := v[r']][r' := v[l]] == s[r := s[l]][l := s[r']][r' := tmp];
  }

  /** The first i left cells are filled, and the right cell of pair i - 1 is a hole for tmp. */
  ghost predicate CycleDone<T(!new)>(s: seq<T>, t: seq<T>, first: int, last: int, ls: seq<int>, rs: seq<int>,
                                     lo: int, mid: int, hi: int, i: int)
    requires Apart(first, last, ls, rs, lo, mid, hi) && 0 <= lo <= hi <= |s| && 1 <= i <= |ls|
  {
    && |t| == |s|
    && Permuted(s, t[RightAt(last, rs, i - 1) := s[LeftAt(first, ls, 0)]], lo, hi)
    && (forall j {:trigger t[LeftAt(first, ls, j)]} :: 0 <= j < i ==> t[LeftAt(first, ls, j)] == s[RightAt(last, rs, j)])
    && (forall j {:trigger t[RightAt(last, rs, j)]} :: 0 <= j < i - 1 ==> t[RightAt(last, rs, j)] == s[LeftAt(first, ls, j + 1)])
    && (forall x {:trigger Untouched(x, first, last, ls, rs, i)} :: 0 <= x < |s| && Untouched(x, first, last, ls, rs, i) ==> t[x] == s[x])
  }

  lemma CycleStart<T(!new)>(s: seq<T>, t: seq<T>, first: int, last: int, ls: seq<int>, rs: seq<int>,
                            lo: int, mid: int, hi: int)
    requires Apart(first, last, ls, rs, lo, mid, hi) && 0 <= lo <= hi <= |s| && |ls| > 0
    requires t == s[LeftAt(first, ls, 0) := s[RightAt(last, rs, 0)]]
    ensures CycleDone(s, t, first, last, ls, rs, lo, mid, hi, 1)
  {
    var l, r := LeftAt(first, ls, 0), RightAt(last, rs, 0);
    SwapPermutes(s, t[r := s[l]], l, r, lo, hi);
    forall x | 0 <= x < |s| && Untouched(x, first, last, ls, rs, 1)
      ensures t[x] == s[x]
    {
      assert x != l;
    }
  }

  lemma CycleLeft<T(!new)>(s: seq<T>, t: seq<T>, u: seq<T>, first: int, last: int, ls: seq<int>, rs: seq<int>,
                           lo: int, mid: int, hi: int, i: int, j: int)
    requires Apart(first, last, ls, rs, lo, mid, hi) && 0 <= lo <= hi <= |s| && 1 <= i < |ls| && 0 <= j < i + 1
    requires CycleDone(s, t, first, last, ls, rs, lo, mid, hi, i)
    requires u == t[RightAt(last, rs, i - 1) := t[LeftAt(first, ls, i)]][LeftAt(first, ls, i) := t[RightAt(last, rs, i)]]
    ensures u[LeftAt(first, ls, j)] == s[RightAt(last, rs, j)]
  {
    hide Permuted;
    if j < i {
      assert ls[j] < ls[i];
      assert u[LeftAt(first, ls, j)] == t[LeftAt(first, ls, j)];
    } else {
      assert Untouched(RightAt(last, rs, i), first, last, ls, rs, i);
    }
  }

  lemma CycleRight<T(!new)>(s: seq<T>, t: seq<T>, u: seq<T>, first: int, last: int, ls: seq<int>, rs: seq<int>,
                            lo: int, mid: int, hi: int, i: int, j: int)
    requires Apart(first, last, ls, rs, lo, mid, hi) && 0 <= lo <= hi <= |s| && 1 <= i < |ls| && 0 <= j < i
    requires CycleDone(s, t, first, last, ls, rs, lo, mid, hi, i)
    requires u == t[RightAt(last, rs, i - 1) := t[LeftAt(first, ls, i)]][LeftAt(first, ls, i) := t[RightAt(last, rs, i)]]
    ensures u[RightAt(last, rs, j)] == s[LeftAt(first, ls, j + 1)]
  {
    hide Permuted;
    if j < i - 1 {
      assert rs[j] < rs[i - 1];
      assert u[RightAt(last, rs, j)] == t[RightAt(last, rs, j)];
    } else {
      assert Untouched(LeftAt(first, ls, i), first, last, ls, rs, i);
    }
  }

  lemma CycleStep<T(!new)>(s: seq<T>, t: seq<T>, u: seq<T>, first: int, last: int, ls: seq<int>, rs: seq<int>,
                           lo: int, mid: int, hi: int, i: int)
    requires Apart(first, last, ls, rs, lo, mid, hi) && 0 <= lo <= hi <= |s| && 1 <= i < |ls|
    requires CycleDone(s, t, first, last, ls, rs, lo, mid, hi, i)
    requires u == t[RightAt(last, rs, i - 1) := t[LeftAt(first, ls, i)]][LeftAt(first, ls, i) := t[RightAt(last, rs, i)]]
    ensures CycleDone(s, u, first, last, ls, rs, lo, mid, hi, i + 1)
  {
    hide Permuted;
    CycleBag(s, t, u, first, last, ls, rs, lo, mid, hi, i);
    forall j | 0 <= j < i + 1
      ensures u[LeftAt(first, ls, j)] == s[RightAt(last, rs, j)]
    {
      CycleLeft(s, t, u, first, last, ls, rs, lo, mid, hi, i, j);
    }
    forall j | 0 <= j < i
      ensures u[RightAt(last, rs, j)] == s[LeftAt(first, ls, j + 1)]
    {
      CycleRight(s, t, u, first, last, ls, rs, lo, mid, hi, i, j);
    }
    forall x | 0 <= x < |s| && Untouched(x, first, last, ls, rs, i + 1)
      ensures u[x] == s[x]
    {
      assert Untouched(x, first, last, ls, rs, i) && x != LeftAt(first, ls, i) && x != RightAt(last, rs, i - 1);
    }
  }

  lemma CycleBag<T(!new)>(s: seq<T>, t: seq<T>, u: seq<T>, first: int, last: int, ls: seq<int>, rs: seq<int>,
                          lo: int, mid: int, hi: int, i: int)
    requires Apart(first, last, ls, rs, lo, mid, hi) && 0 <= lo <= hi <= |s| && 1 <= i < |ls|
    requires |t| == |s| && Permuted(s, t[RightAt(last, rs, i - 1) := s[LeftAt(first, ls, 0)]], lo, hi)
    requires u == t[RightAt(last, rs, i - 1) := t[LeftAt(first, ls, i)]][LeftAt(first, ls, i) := t[RightAt(last, rs, i)]]
    ensures Permuted(s, u[RightAt(last, rs, i) := s[LeftAt(first, ls, 0)]], lo, hi)
  {
    var r, l, r' := RightAt(last, rs, i - 1), LeftAt(first, ls, i), RightAt(last, rs, i);
    assert rs[i - 1] < rs[i];
    HoleMove(t, r, l, r', s[LeftAt(first, ls, 0)], lo, hi);
    PermutedTrans(s, t[r := s[LeftAt(first, ls, 0)]], u[r' := s[LeftAt(first, ls, 0)]], lo, hi);
  }

  lemma CycleEnd<T(!new)>(s: seq<T>, t: seq<T>, u: seq<T>, first: int, last: int, ls: seq<int>, rs: seq<int>,
                          lo: int, mid: int, hi: int)
    requires Apart(first, last, ls, rs, lo, mid, hi) && 0 <= lo <= hi <= |s| && |ls| > 0
    requires CycleDone(s, t, first, last, ls, rs, lo, mid, hi, |ls|)
    requires u == t[RightAt(last, rs, |ls| - 1) := s[LeftAt(first, ls, 0)]]
    ensures Exchanged(s, u, first, last, ls, rs, false, lo, mid, hi)
  {
    hide Permuted;
    var n := |ls|;
    forall j | 0 <= j < n
      ensures u[RightAt(last, rs, j)] == s[LeftAt(first, ls, Partner(j, n, false))]
    {
      assert j < n - 1 ==> rs[j] < rs[n - 1];
    }
    forall x | 0 <= x < |s| && Untouched(x, first, last, ls, rs, n)
      ensures u[x] == s[x]
    {
      assert x != RightAt(last, rs, n - 1);
    }
  }

  /** Fills the hole at r from l and the cell l from r', which becomes the hole. */
  method PassHole<T(!new)>(a: array<T>, l: int, r: int, r': int)
    requires 0 <= l < a.Length && 0 <= r < a.Length && 0 <= r' < a.Length && r != r'
    modifies a
    ensures a[..] == old(a[..])[r := old(a[l])][l := old(a[r'])]
  {
    a[r] := a[l];
    a[l] := a[r'];
  }

  /** The cyclic move keeps one element aside and fills the hole it leaves from the other side. */
  method MoveCycle<T(!new)>(a: array<T>, first: int, last: int, ls: seq<int>, rs: seq<int>,
                            ghost lo: int, ghost mid: int, ghost hi: int)
    requires 0 <= lo <= hi <= a.Length && Apart(first, last, ls, rs, lo, mid, hi) && |ls| > 0
    modifies a
    ensures Exchanged(old(a[..]), a[..], first, last, ls, rs, false, lo, mid, hi)
  {
    hide Exchanged, CycleDone;
    ghost var s := a[..];
    var l, r := LeftAt(first, ls, 0), RightAt(last, rs, 0);
    var tmp := a[l];
    a[l] := a[r];
    CycleStart(s, a[..], first, last, ls, rs, lo, mid, hi);
    var i := 1;
    while i < |ls|
      invariant 1 <= i <= |ls| && r == RightAt(last, rs, i - 1)
      invariant CycleDone(s, a[..], first, last, ls, rs, lo, mid, hi, i)
    {
      ghost var t := a[..];
      l := LeftAt(first, ls, i);
      assert rs[i - 1] < rs[i];
      PassHole(a, l, r, RightAt(last, rs, i));
      r := RightAt(last, rs, i);
      CycleStep(s, t, a[..], first, last, ls, rs, lo, mid, hi, i);
      i := i + 1;
    }
    ghost var t := a[..];
    a[r] := tmp;
    CycleEnd(s, t, a[..], first, last, ls, rs, lo, mid, hi);
  }

  method SwapOffsets<T(!new)>(a: array<T>, first: int, last: int, ls: seq<int>, rs: seq<int>, useSwaps: bool,
                              ghost lo: int, ghost mid: int, ghost hi: int)
    requires 0 <= lo <= hi <= a.Length && Apart(first, last, ls, rs, lo, mid, hi)
    modifies a
    ensures Exchanged(old(a[..]), a[..], first, last, ls, rs, useSwaps, lo, mid, hi)
  {
    if useSwaps {
      SwapPairs(a, first, last, ls, rs, lo, mid, hi);
    } else if |ls| > 0 {
      MoveCycle(a, first, last, ls, rs, lo, mid, hi);
    }
  }

  // ----- one exchange of two blocks -----

  /** Offsets taken from the marks of two disjoint blocks. */
  ghost predicate Taken<T(!new)>(lt: (T, T) -> bool, s: seq<T>, p: T, first: int, last: int, sizeL: int, sizeR: int,
                                 ls: seq<int>, rs: seq<int>)
  {
    && Fits(s, false, first, sizeL) && Fits(s, true, last, sizeR) && 0 <= sizeL && first + sizeL <= last - sizeR
    && first + sizeL <= Top(first, last)
    && |ls| == |rs| <= |Marks(lt, s, p, false, first, sizeL)| && |rs| <= |Marks(lt, s, p, true, last, sizeR)|
    && (forall j :: 0 <= j < |ls| ==> ls[j] == Marks(lt, s, p, false, first, sizeL)[j])
    && (forall j :: 0 <= j < |rs| ==> rs[j] == Marks(lt, s, p, true, last, sizeR)[j] + 1)
  }

  function Top(first: int, last: int): int {
    if last < first then first else last
  }

  lemma TakenApart<T(!new)>(lt: (T, T) -> bool, s: seq<T>, p: T, first: int, last: int, sizeL: int, sizeR: int,
                            ls: seq<int>, rs: seq<int>)
    requires Taken(lt, s, p, first, last, sizeL, sizeR, ls, rs)
    ensures Apart(first, last, ls, rs, first, first + sizeL, Top(first, last))
  {
    MarksOrder(lt, s, p, false, first, sizeL);
    MarksOrder(lt, s, p, true, last, sizeR);
  }

  /** A marked cell takes an element misplaced on the other side, so it is in order afterwards. */
  lemma TookOther<T(!new)>(lt: (T, T) -> bool, s: seq<T>, t: seq<T>, p: T, first: int, last: int,
                           sizeL: int, sizeR: int, ls: seq<int>, rs: seq<int>, swaps: bool, j: int)
    requires Taken(lt, s, p, first, last, sizeL, sizeR, ls, rs) && 0 <= j < |ls|
    requires Apart(first, last, ls, rs, first, first + sizeL, Top(first, last))
    requires Exchanged(s, t, first, last, ls, rs, swaps, first, first + sizeL, Top(first, last))
    requires |t| == |s|
    ensures !Wrong(lt, t, p, false, first, Marks(lt, s, p, false, first, sizeL)[j])
    ensures !Wrong(lt, t, p, true, last, Marks(lt, s, p, true, last, sizeR)[j])
  {
    hide Permuted, Marks;
    MarksOrder(lt, s, p, false, first, sizeL);
    MarksOrder(lt, s, p, true, last, sizeR);
    var m, n, i := Marks(lt, s, p, false, first, sizeL), Marks(lt, s, p, true, last, sizeR), Partner(j, |ls|, swaps);
    assert Wrong(lt, s, p, true, last, n[j]) && rs[j] == n[j] + 1;
    assert t[LeftAt(first, ls, j)] == s[RightAt(last, rs, j)];
    assert Wrong(lt, s, p, false, first, m[i]) && ls[i] == m[i];
    assert t[RightAt(last, rs, j)] == s[LeftAt(first, ls, i)];
  }

  lemma LeftKept<T(!new)>(s: seq<T>, t: seq<T>, first: int, last: int, sizeL: int,
                          ls: seq<int>, rs: seq<int>, swaps: bool, k: int)
    requires 0 <= first <= Top(first, last) <= |s|
    requires Apart(first, last, ls, rs, first, first + sizeL, Top(first, last))
    requires Exchanged(s, t, first, last, ls, rs, swaps, first, first + sizeL, Top(first, last))
    requires 0 <= k < sizeL && forall j :: 0 <= j < |ls| ==> ls[j] != k
    ensures |t| == |s| && t[first + k] == s[first + k]
  {
    assert Untouched(first + k, first, last, ls, rs, |ls|);
  }

  lemma RightKept<T(!new)>(s: seq<T>, t: seq<T>, first: int, last: int, sizeL: int,
                           ls: seq<int>, rs: seq<int>, swaps: bool, k: int)
    requires 0 <= first <= Top(first, last) <= |s|
    requires Apart(first, last, ls, rs, first, first + sizeL, Top(first, last))
    requires Exchanged(s, t, first, last, ls, rs, swaps, first, first + sizeL, Top(first, last))
    requires 0 <= k && first + sizeL < last - k && forall j :: 0 <= j < |rs| ==> rs[j] != k + 1
    ensures |t| == |s| && t[last - 1 - k] == s[last - 1 - k]
  {
    assert Untouched(last - 1 - k, first, last, ls, rs, |ls|);
  }

  /** The exchange puts right exactly the marks it took, on the left ... */
  lemma LeftCleared<T(!new)>(lt: (T, T) -> bool, s: seq<T>, t: seq<T>, p: T, first: int, last: int,
                             sizeL: int, sizeR: int, ls: seq<int>, rs: seq<int>, swaps: bool)
    requires Taken(lt, s, p, first, last, sizeL, sizeR, ls, rs)
    requires Apart(first, last, ls, rs, first, first + sizeL, Top(first, last))
    requires Exchanged(s, t, first, last, ls, rs, swaps, first, first + sizeL, Top(first, last))
    requires |s| == |t|
    ensures Fits(t, false, first, sizeL)
    ensures Marks(lt, t, p, false, first, sizeL) == Marks(lt, s, p, false, first, sizeL)[|ls|..]
  {
    hide Permuted, Marks, Exchanged, Apart;
    var m, num := Marks(lt, s, p, false, first, sizeL), |ls|;
    MarksOrder(lt, s, p, false, first, sizeL);
    forall j | 0 <= j < num
      ensures !Wrong(lt, t, p, false, first, m[j])
    {
      TookOther(lt, s, t, p, first, last, sizeL, sizeR, ls, rs, swaps, j);
    }
    forall j | num <= j < |m|
      ensures Wrong(lt, t, p, false, first, m[j])
    {
      LeftKept(s, t, first, last, sizeL, ls, rs, swaps, m[j]);
    }
    forall k | 0 <= k < sizeL && !Wrong(lt, s, p, false, first, k)
      ensures !Wrong(lt, t, p, false, first, k)
    {
      assert forall j :: 0 <= j < num ==> Wrong(lt, s, p, false, first, m[j]);
      LeftKept(s, t, first, last, sizeL, ls, rs, swaps, k);
    }
    MarksCleared(lt, s, t, p, false, first, sizeL, num);
  }

  /** ... and on the right. */
  lemma RightCleared<T(!new)>(lt: (T, T) -> bool, s: seq<T>, t: seq<T>, p: T, first: int, last: int,
                              sizeL: int, sizeR: int, ls: seq<int>, rs: seq<int>, swaps: bool)
    requires Taken(lt, s, p, first, last, sizeL, sizeR, ls, rs)
    requires Apart(first, last, ls, rs, first, first + sizeL, Top(first, last))
    requires Exchanged(s, t, first, last, ls, rs, swaps, first, first + sizeL, Top(first, last))
    requires |s| == |t|
    ensures Fits(t, true, last, sizeR)
    ensures Marks(lt, t, p, true, last, sizeR) == Marks(lt, s, p, true, last, sizeR)[|rs|..]
  {
    hide Permuted, Marks, Exchanged, Apart;
    var m, num := Marks(lt, s, p, true, last, sizeR), |rs|;
    MarksOrder(lt, s, p, true, last, sizeR);
    forall j | 0 <= j < num
      ensures !Wrong(lt, t, p, true, last, m[j])
    {
      TookOther(lt, s, t, p, first, last, sizeL, sizeR, ls, rs, swaps, j);
    }
    forall j | num <= j < |m|
      ensures Wrong(lt, t, p, true, last, m[j])
    {
      RightKept(s, t, first, last, sizeL, ls, rs, swaps, m[j]);
    }
    forall k | 0 <= k < sizeR && !Wrong(lt, s, p, true, last, k)
      ensures !Wrong(lt, t, p, true, last, k)
    {
      assert forall j :: 0 <= j < num ==> Wrong(lt, s, p, true, last, m[j]);
      RightKept(s, t, first, last, sizeL, ls, rs, swaps, k);
    }
    MarksCleared(lt, s, t, p, true, last, sizeR, num);
  }

  lemma HoldsRest(off: seq<int>, start: int, num: int, m: seq<int>, d: int, taken: int)
    requires Holds(off, start, num, m, d) && 0 <= taken <= num
    ensures Holds(off, start + taken, num - taken, m[taken..], d)
  {
    forall j | 0 <= j < num - taken
      ensures off[start + taken + j] == m[taken..][j] + d
    {
      assert off[start + (taken + j)] == m[taken + j] + d;
    }
  }

  /** Exchanges as many marked pairs as both blocks have and skips a block without marks. */
  method ExchangeBlocks<T(!new)>(a: array<T>, pivot: T, lt: (T, T) -> bool, first0: int, last0: int,
                                 sizeL: int, sizeR: int, offL: array<int>, offR: array<int>,
                                 startL0: int, numL0: int, startR0: int, numR0: int)
    returns (first: int, last: int, startL: int, numL: int, startR: int, numR: int)
    requires Fits(a[..], false, first0, sizeL) && Fits(a[..], true, last0, sizeR)
    requires 0 <= sizeL && first0 + sizeL <= last0 - sizeR && first0 + sizeL <= Top(first0, last0)
    requires (offL as object) != a && (offR as object) != a
    requires Holds(offL[..], startL0, numL0, Marks(lt, a[..], pivot, false, first0, sizeL), 0)
    requires Holds(offR[..], startR0, numR0, Marks(lt, a[..], pivot, true, last0, sizeR), 1)
    modifies a
    ensures Permuted(old(a[..]), a[..], first0, Top(first0, last0))
    ensures numL == 0 || numR == 0
    ensures first == if numL == 0 then first0 + sizeL else first0
    ensures last == if numR == 0 then last0 - sizeR else last0
    ensures Holds(offL[..], startL, numL, Marks(lt, a[..], pivot, false, first0, sizeL), 0)
    ensures Holds(offR[..], startR, numR, Marks(lt, a[..], pivot, true, last0, sizeR), 1)
  {
    hide Exchanged, Apart, Permuted, Marks;
    first, last, startL, numL, startR, numR := first0, last0, startL0, numL0, startR0, numR0;
    var num := if numL < numR then numL else numR;
    var ls, rs := offL[startL..startL + num], offR[startR..startR + num];
    ghost var s := a[..];
    TakenApart(lt, s, pivot, first, last, sizeL, sizeR, ls, rs);
    SwapOffsets(a, first, last, ls, rs, numL == numR, first, first + sizeL, Top(first, last));
    LeftCleared(lt, s, a[..], pivot, first, last, sizeL, sizeR, ls, rs, numL == numR);
    RightCleared(lt, s, a[..], pivot, first, last, sizeL, sizeR, ls, rs, numL == numR);
    HoldsRest(offL[..], startL, numL, Marks(lt, s, pivot, false, first, sizeL), 0, num);
    HoldsRest(offR[..], startR, numR, Marks(lt, s, pivot, true, last, sizeR), 1, num);
    numL, numR := numL - num, numR - num;
    startL, startR := startL + num, startR + num;
    if numL == 0 { first := first + sizeL; }
    if numR == 0 { last := last - sizeR; }
  }

  // ----- the last block -----

  /** Swapping the last marked element with the end of its block drops the mark and the end. */
  lemma SweepStep<T(!new)>(lt: (T, T) -> bool, s: seq<T>, t: seq<T>, p: T, right: bool, base: int, size: int, m: seq<int>)
    requires Fits(s, right, base, size) && m == Marks(lt, s, p, right, base, size) && m != []
    requires var x, y := Cell(right, base, m[|m| - 1]), Cell(right, base, size - 1);
             t == s[x := s[y]][y := s[x]]
    ensures Fits(t, right, base, size - 1) && size > 0
    ensures Marks(lt, t, p, right, base, size - 1) == m[..|m| - 1]
    ensures Wrong(lt, t, p, right, base, size - 1)
    ensures if right then Permuted(s, t, base - size, base) else Permuted(s, t, base, base + size)
  {
    hide Marks, Permuted;
    MarksOrder(lt, s, p, right, base, size);
    BlockSwapPermutes(s, t, right, base, size, m[|m| - 1], size - 1);
    LastMarkMoved(lt, s, t, p, right, base, size, m);
    MarksDrop(lt, s, t, p, right, base, size);
  }

  lemma BlockSwapPermutes<T(!new)>(s: seq<T>, t: seq<T>, right: bool, base: int, size: int, i: int, k: int)
    requires Fits(s, right, base, size) && 0 <= i < size && 0 <= k < size
    requires var x, y := Cell(right, base, i), Cell(right, base, k); t == s[x := s[y]][y := s[x]]
    ensures if right then Permuted(s, t, base - size, base) else Permuted(s, t, base, base + size)
  {
    hide Permuted;
    if right {
      SwapPermutes(s, t, Cell(right, base, i), Cell(right, base, k), base - size, base);
    } else {
      SwapPermutes(s, t, Cell(right, base, i), Cell(right, base, k), base, base + size);
    }
  }

  /** The element exchanged for the last marked one is in order unless it is that one itself. */
  lemma LastMarkMoved<T(!new)>(lt: (T, T) -> bool, s: seq<T>, t: seq<T>, p: T, right: bool, base: int, size: int, m: seq<int>)
    requires Fits(s, right, base, size) && 0 < size && m == Marks(lt, s, p, right, base, size) && m != []
    requires 0 <= m[|m| - 1] < size && Wrong(lt, s, p, right, base, m[|m| - 1])
    requires var x, y := Cell(right, base, m[|m| - 1]), Cell(right, base, size - 1); t == s[x := s[y]][y := s[x]]
    ensures |t| == |s| && Wrong(lt, t, p, right, base, size - 1)
    ensures m[|m| - 1] < size - 1 ==> !Wrong(lt, t, p, right, base, m[|m| - 1])
    ensures forall k :: 0 <= k < size - 1 && k != m[|m| - 1] ==> t[Cell(right, base, k)] == s[Cell(right, base, k)]
  {
    hide Marks;
    MarksStep(lt, s, p, right, base, size);
  }

  method SwapCells<T>(a: array<T>, x: int, y: int)
    requires 0 <= x < a.Length && 0 <= y < a.Length
    modifies a
    ensures a[..] == old(a[..])[x := old(a[y])][y := old(a[x])]
  {
    a[x], a[y] := a[y], a[x];
  }

  /** A step inside a part of the block permutes the block and leaves the rest of it alone. */
  lemma SweepEnd<T(!new)>(s0: seq<T>, s: seq<T>, t: seq<T>, lo: int, hi: int, first: int, last: int)
    requires Permuted(s0, s, first, last) && Permuted(s, t, lo, hi) && first <= lo && hi <= last
    ensures Permuted(s0, t, first, last)
    ensures forall k :: first <= k < last && !(lo <= k < hi) ==> t[k] == s[k]
  {
  }

  lemma SweepLeftStep<T(!new)>(lt: (T, T) -> bool, s0: seq<T>, s: seq<T>, p: T, first: int, last: int, last0: int, m: seq<int>)
    requires 0 <= first <= last < last0 <= |s| && Permuted(s0, s, first, last0) && NoneLess(lt, s, last + 1, last0, p)
    requires m == Marks(lt, s, p, false, first, last + 1 - first) && m != []
    ensures 0 <= first + m[|m| - 1] < |s|
    ensures var x := first + m[|m| - 1];
            var t := s[x := s[last]][last := s[x]];
            && Permuted(s0, t, first, last0) && NoneLess(lt, t, last, last0, p)
            && Marks(lt, t, p, false, first, last - first) == m[..|m| - 1]
  {
    hide Marks, Permuted;
    MarksOrder(lt, s, p, false, first, last + 1 - first);
    var x := first + m[|m| - 1];
    var t := s[x := s[last]][last := s[x]];
    SweepStep(lt, s, t, p, false, first, last + 1 - first, m);
    SweepEnd(s0, s, t, first, last + 1, first, last0);
    assert !lt(t[last], p);
  }

  lemma SweepRightStep<T(!new)>(lt: (T, T) -> bool, s0: seq<T>, s: seq<T>, p: T, first0: int, first: int, last: int, m: seq<int>)
    requires 0 <= first0 <= first < last <= |s| && Permuted(s0, s, first0, last) && AllLess(lt, s, first0, first, p)
    requires m == Marks(lt, s, p, true, last, last - first) && m != []
    ensures 0 <= last - 1 - m[|m| - 1] < |s|
    ensures var x := last - 1 - m[|m| - 1];
            var t := s[x := s[first]][first := s[x]];
            && Permuted(s0, t, first0, last) && AllLess(lt, t, first0, first + 1, p)
            && Marks(lt, t, p, true, last, last - (first + 1)) == m[..|m| - 1]
  {
    hide Marks, Permuted;
    MarksOrder(lt, s, p, true, last, last - first);
    var x := last - 1 - m[|m| - 1];
    var t := s[x := s[first]][first := s[x]];
    SweepStep(lt, s, t, p, true, last, last - first, m);
    SweepEnd(s0, s, t, first, last, first0, last);
    assert lt(t[first], p);
  }

  /** Moves the misplaced elements of the remaining left block behind the others, last one first. */
  method SweepLeft<T(!new)>(a: array<T>, pivot: T, lt: (T, T) -> bool, first: int, last0: int,
                            offL: seq<int>)
    returns (last: int)
    requires 0 <= first <= last0 <= a.Length
    requires Holds(offL, 0, |offL|, Marks(lt, a[..], pivot, false, first, last0 - first), 0)
    modifies a
    ensures Permuted(old(a[..]), a[..], first, last0)
    ensures first <= last <= last0
    ensures AllLess(lt, a[..], first, last, pivot) && NoneLess(lt, a[..], last, last0, pivot)
  {
    hide Marks, Permuted, NoneLess, AllLess;
    PermutedSelf(a[..], first, last0);
    NoCells(lt, a[..], pivot, first, last0);
    ghost var m := Marks(lt, a[..], pivot, false, first, last0 - first);
    var numL := |offL|;
    last := last0;
    while numL > 0
      invariant 0 <= numL <= |m| && first <= last <= last0
      invariant Permuted(old(a[..]), a[..], first, last0)
      invariant Marks(lt, a[..], pivot, false, first, last - first) == m[..numL]
      invariant NoneLess(lt, a[..], last, last0, pivot)
    {
      numL := numL - 1;
      last := last - 1;
      var x := first + offL[numL];
      assert offL[0 + numL] == m[numL];
      SweepLeftStep(lt, old(a[..]), a[..], pivot, first, last, last0, m[..numL + 1]);
      SwapCells(a, x, last);
      assert m[..numL + 1][..numL] == m[..numL];
    }
    NoMarksLeft(lt, a[..], pivot, first, last);
  }

  /** The mirror image for the remaining right block. */
  method SweepRight<T(!new)>(a: array<T>, pivot: T, lt: (T, T) -> bool, first0: int, last: int,
                             offR: seq<int>)
    returns (first: int)
    requires 0 <= first0 <= last <= a.Length
    requires Holds(offR, 0, |offR|, Marks(lt, a[..], pivot, true, last, last - first0), 1)
    modifies a
    ensures Permuted(old(a[..]), a[..], first0, last)
    ensures first0 <= first <= last
    ensures AllLess(lt, a[..], first0, first, pivot) && NoneLess(lt, a[..], first, last, pivot)
  {
    hide Marks, Permuted, NoneLess, AllLess;
    PermutedSelf(a[..], first0, last);
    NoCells(lt, a[..], pivot, first0, last);
    ghost var m := Marks(lt, a[..], pivot, true, last, last - first0);
    var numR := |offR|;
    first := first0;
    while numR > 0
      invariant 0 <= numR <= |m| && first0 <= first <= last
      invariant Permuted(old(a[..]), a[..], first0, last)
      invariant Marks(lt, a[..], pivot, true, last, last - first) == m[..numR]
      invariant AllLess(lt, a[..], first0, first, pivot)
    {
      numR := numR - 1;
      var x := last - offR[numR];
      assert offR[0 + numR] == m[numR] + 1;
      SweepRightStep(lt, old(a[..]), a[..], pivot, first0, first, last, m[..numR + 1]);
      SwapCells(a, x, first);
      assert m[..numR + 1][..numR] == m[..numR];
      first := first + 1;
    }
    NoMarksRight(lt, a[..], pivot, first, last);
  }

  // ----- the whole partition -----

  /** A block still pending in its buffer: the buffer holds exactly its misplaced positions. */
  ghost predicate Pending<T(!new)>(lt: (T, T) -> bool, s: seq<T>, p: T, right: bool, base: int, size: int,
                                   off: seq<int>, start: int, num: int)
  {
    && 0 <= start && 0 <= num && start + num <= |off|
    && (num > 0 ==> Fits(s, right, base, size)
                    && Holds(off, start, num, Marks(lt, s, p, right, base, size), if right then 1 else 0))
  }

  ghost predicate Buffers<T>(a: array<T>, offL: array<int>, offR: array<int>, size: int) {
    && offL != offR && (offL as object) != a && (offR as object) != a
    && offL.Length == offR.Length == size && size > 0
  }

  /** Fills the buffers that are empty; what does not need filling has no cells. */
  method FillBuffers<T(!new)>(a: array<T>, pivot: T, lt: (T, T) -> bool, first0: int, last0: int,
                              sizeL: int, sizeR: int, offL: array<int>, offR: array<int>,
                              startL0: int, numL0: int, startR0: int, numR0: int, fill: bool)
    returns (startL: int, numL: int, startR: int, numR: int)
    requires Buffers(a, offL, offR, offL.Length)
    requires Fits(a[..], false, first0, sizeL) && Fits(a[..], true, last0, sizeR)
    requires 0 <= first0 <= a.Length && 0 <= last0 <= a.Length && sizeL <= offL.Length && sizeR <= offL.Length
    requires Pending(lt, a[..], pivot, false, first0, sizeL, offL[..], startL0, numL0)
    requires Pending(lt, a[..], pivot, true, last0, sizeR, offR[..], startR0, numR0)
    requires !fill ==> (numL0 == 0 ==> sizeL <= 0) && (numR0 == 0 ==> sizeR <= 0)
    modifies offL, offR
    ensures Holds(offL[..], startL, numL, Marks(lt, a[..], pivot, false, first0, sizeL), 0)
    ensures Holds(offR[..], startR, numR, Marks(lt, a[..], pivot, true, last0, sizeR), 1)
  {
    hide Marks;
    startL, numL, startR, numR := startL0, numL0, startR0, numR0;
    MarksStep(lt, a[..], pivot, false, first0, sizeL);
    MarksStep(lt, a[..], pivot, true, last0, sizeR);
    if fill && numL == 0 {
      startL := 0;
      numL := FillLeft(a, first0, sizeL, pivot, lt, offL);
    }
    if fill && numR == 0 {
      startR := 0;
      numR := FillRight(a, last0, sizeR, pivot, lt, offR);
    }
  }

  /** Fills the empty buffers and exchanges; sizes are those of the two blocks. */
  method FillAndExchange<T(!new)>(a: array<T>, pivot: T, lt: (T, T) -> bool, first0: int, last0: int,
                                  sizeL: int, sizeR: int, offL: array<int>, offR: array<int>,
                                  startL0: int, numL0: int, startR0: int, numR0: int, fill: bool)
    returns (first: int, last: int, startL: int, numL: int, startR: int, numR: int)
    requires Buffers(a, offL, offR, offL.Length)
    requires Fits(a[..], false, first0, sizeL) && Fits(a[..], true, last0, sizeR)
    requires 0 <= first0 <= a.Length && 0 <= last0 <= a.Length
    requires 0 <= sizeL <= offL.Length && sizeR <= offL.Length
    requires first0 + sizeL <= last0 - sizeR && first0 + sizeL <= Top(first0, last0)
    requires Pending(lt, a[..], pivot, false, first0, sizeL, offL[..], startL0, numL0)
    requires Pending(lt, a[..], pivot, true, last0, sizeR, offR[..], startR0, numR0)
    requires !fill ==> (numL0 == 0 ==> sizeL <= 0) && (numR0 == 0 ==> sizeR <= 0)
    modifies a, offL, offR
    ensures Permuted(old(a[..]), a[..], first0, Top(first0, last0))
    ensures numL == 0 || numR == 0
    ensures first == if numL == 0 then first0 + sizeL else first0
    ensures last == if numR == 0 then last0 - sizeR else last0
    ensures Pending(lt, a[..], pivot, false, first0, sizeL, offL[..], startL, numL)
    ensures Pending(lt, a[..], pivot, true, last0, sizeR, offR[..], startR, numR)
    ensures AllLess(lt, a[..], first0, first, pivot)
    ensures NoneLess(lt, a[..], last, last0, pivot)
  {
    hide Permuted, Marks, AllLess, NoneLess;
    startL, numL, startR, numR :=
      FillBuffers(a, pivot, lt, first0, last0, sizeL, sizeR, offL, offR, startL0, numL0, startR0, numR0, fill);
    first, last, startL, numL, startR, numR :=
      ExchangeBlocks(a, pivot, lt, first0, last0, sizeL, sizeR, offL, offR, startL, numL, startR, numR);
    if numL == 0 {
      NoMarksLeft(lt, a[..], pivot, first0, first);
    }
    if numR == 0 && last < last0 {
      NoMarksRight(lt, a[..], pivot, last, last0);
    }
    NoCells(lt, a[..], pivot, first0, last0);
  }

  lemma NoCells<T(!new)>(lt: (T, T) -> bool, s: seq<T>, p: T, x: int, y: int)
    requires 0 <= x <= |s| && 0 <= y <= |s|
    ensures AllLess(lt, s, x, x, p) && forall z :: y <= z ==> NoneLess(lt, s, z, y, p)
  {
  }

  /** C division truncates toward zero. */
  function Half(n: int): int {
    if n < 0 then -((-n) / 2) else n / 2
  }

  lemma PendingSize<T(!new)>(lt: (T, T) -> bool, s: seq<T>, p: T, right: bool, base: int, size: int,
                             off: seq<int>, start: int, num: int)
    requires Pending(lt, s, p, right, base, size, off, start, num)
    ensures 0 <= num && (num != 0 ==> 0 < size)
  {
    hide Marks;
    if num > 0 { MarksStep(lt, s, p, right, base, size); }
  }

  lemma PendingResize<T(!new)>(lt: (T, T) -> bool, s: seq<T>, p: T, right: bool, base: int, size: int, size': int,
                               off: seq<int>, start: int, num: int)
    requires Pending(lt, s, p, right, base, size, off, start, num) && (num != 0 ==> size == size')
    ensures Pending(lt, s, p, right, base, size', off, start, num)
  {
  }

  /** A block without marks may be taken to begin elsewhere. */
  lemma PendingMoved<T(!new)>(lt: (T, T) -> bool, s: seq<T>, p: T, right: bool, base: int, base': int, size: int,
                              off: seq<int>, start: int, num: int)
    requires Pending(lt, s, p, right, base, size, off, start, num) && (num != 0 ==> base == base')
    ensures Pending(lt, s, p, right, base', size, off, start, num)
  {
  }

  /** The code after the block loop: at most two block sizes are left between first and last. */
  method LastBlocks<T(!new)>(a: array<T>, pivot: T, lt: (T, T) -> bool, first0: int, last0: int,
                             offL: array<int>, offR: array<int>, startL0: int, numL0: int, startR0: int, numR0: int)
    returns (split: int)
    requires Buffers(a, offL, offR, offL.Length)
    requires 0 <= first0 <= a.Length && 0 <= last0 <= a.Length && -1 <= last0 - first0 <= 2 * offL.Length
    requires numL0 == 0 || numR0 == 0
    requires numL0 != 0 || numR0 != 0 ==> offL.Length <= last0 - first0
    requires Pending(lt, a[..], pivot, false, first0, offL.Length, offL[..], startL0, numL0)
    requires Pending(lt, a[..], pivot, true, last0, offL.Length, offR[..], startR0, numR0)
    modifies a, offL, offR
    ensures Permuted(old(a[..]), a[..], first0, Top(first0, last0))
    ensures first0 <= split <= Top(first0, last0)
    ensures AllLess(lt, a[..], first0, split, pivot) && NoneLess(lt, a[..], split, last0, pivot)
  {
    hide Permuted, Pending, AllLess, NoneLess;
    var lSize, rSize, unknownLeft := LastSizes(first0, last0, offL.Length, numL0, numR0);
    PendingResize(lt, a[..], pivot, false, first0, offL.Length, lSize, offL[..], startL0, numL0);
    PendingResize(lt, a[..], pivot, true, last0, offL.Length, rSize, offR[..], startR0, numR0);
    var first, last, startL, numL, startR, numR :=
      FillAndExchange(a, pivot, lt, first0, last0, lSize, rSize, offL, offR, startL0, numL0, startR0, numR0, unknownLeft != 0);
    ghost var s := a[..];
    PendingSize(lt, s, pivot, false, first0, lSize, offL[..], startL, numL);
    PendingSize(lt, s, pivot, true, last0, rSize, offR[..], startR, numR);
    PendingResize(lt, s, pivot, false, first0, lSize, last - first, offL[..], startL, numL);
    PendingResize(lt, s, pivot, true, last0, rSize, last - first, offR[..], startR, numR);
    PendingMoved(lt, s, pivot, false, first0, first, last - first, offL[..], startL, numL);
    PendingMoved(lt, s, pivot, true, last0, last, last - first, offR[..], startR, numR);
    split := Sweep(a, pivot, lt, first0, first, last, last0, offL, offR, startL, numL, startR, numR);
    PermutedWiden(s, a[..], first, last, first0, Top(first0, last0));
    PermutedTrans(old(a[..]), s, a[..], first0, Top(first0, last0));
  }

  /** A pending block keeps its size and the other side gets the rest; otherwise they share it. */
  method LastSizes(first: int, last: int, blockSize: int, numL: int, numR: int)
    returns (lSize: int, rSize: int, unknownLeft: int)
    requires -1 <= last - first <= 2 * blockSize && blockSize > 0 && (numL == 0 || numR == 0)
    requires numL != 0 || numR != 0 ==> blockSize <= last - first
    ensures 0 <= lSize <= blockSize && -1 <= rSize <= blockSize
    ensures first + lSize == last - rSize
    ensures first + lSize <= Top(first, last)
    ensures numL != 0 ==> lSize == blockSize
    ensures numR != 0 ==> rSize == blockSize
    ensures unknownLeft == 0 ==> (numL == 0 ==> lSize == 0) && (numR == 0 ==> rSize == 0)
    ensures unknownLeft == last - first - (if numL == 0 && numR == 0 then 0 else blockSize)
    ensures numL == 0 && numR == 0 ==> if last < first then (lSize, rSize) == (0, -1) else 0 <= rSize - lSize <= 1
  {
    unknownLeft := (last - first) - (if numR != 0 || numL != 0 then blockSize else 0);
    if numR != 0 {
      lSize, rSize := unknownLeft, blockSize;
    } else if numL != 0 {
      lSize, rSize := blockSize, unknownLeft;
    } else {
      lSize := Half(unknownLeft);
      rSize := unknownLeft - lSize;
    }
  }

  /** Sweeps whichever block still has marks; first or last has already been moved past the other. */
  method Sweep<T(!new)>(a: array<T>, pivot: T, lt: (T, T) -> bool, ghost first0: int, first: int, last: int,
                        ghost last0: int, offL: array<int>, offR: array<int>, startL: int, numL: int, startR: int, numR: int)
    returns (split: int)
    requires Buffers(a, offL, offR, offL.Length)
    requires 0 <= first0 <= first <= last <= Top(first0, last0) <= a.Length && last0 <= a.Length
    requires numL == 0 || numR == 0
    requires numL == 0 && numR == 0 ==> first == last
    requires Pending(lt, a[..], pivot, false, first, last - first, offL[..], startL, numL)
    requires Pending(lt, a[..], pivot, true, last, last - first, offR[..], startR, numR)
    requires AllLess(lt, a[..], first0, first, pivot) && NoneLess(lt, a[..], last, last0, pivot)
    modifies a
    ensures Permuted(old(a[..]), a[..], first, last)
    ensures first <= split <= last
    ensures AllLess(lt, a[..], first0, split, pivot) && NoneLess(lt, a[..], split, last0, pivot)
  {
    split := first;
    if numL != 0 {
      split := SweepLeft(a, pivot, lt, first, last, offL[startL..startL + numL]);
    } else if numR != 0 {
      split := SweepRight(a, pivot, lt, first, last, offR[startR..startR + numR]);
    }
  }

  /** What one exchange settles next to what was settled before. */
  lemma Settled<T(!new)>(lt: (T, T) -> bool, s: seq<T>, t: seq<T>, p: T, begin: int, first0: int, first: int,
                         last: int, last0: int, end: int)
    requires 0 <= begin <= first0 <= first <= |s| && Top(first0, last0) <= end <= |s| && 0 <= last
    requires first0 <= last0 ==> last <= last0
    requires Permuted(s, t, first0, Top(first0, last0))
    requires AllLess(lt, s, begin, first0, p) && NoneLess(lt, s, Top(first0, last0), end, p)
    requires AllLess(lt, t, first0, first, p) && NoneLess(lt, t, last, last0, p)
    ensures AllLess(lt, t, begin, first, p)
    ensures NoneLess(lt, t, if last0 < first0 then first0 else last, end, p)
    ensures Permuted(s, t, begin, end)
  {
  }

  /** The two opening searches and the swap of the pair they find. */
  method FirstPair<T(!new)>(a: array<T>, begin: int, end: int, lt: (T, T) -> bool, ghost m: int)
    returns (first: int, last: int, already: bool)
    requires 0 <= begin < m < end <= a.Length && !lt(a[m], a[begin])
    modifies a
    ensures begin < first <= last + 1 <= end && first <= end
    ensures Permuted(old(a[..]), a[..], begin + 1, end)
    ensures AllLess(lt, a[..], begin + 1, first, a[begin]) && NoneLess(lt, a[..], Top(first, last), end, a[begin])
    ensures already <==> SplitAlready(lt, old(a[..]), begin, end)
  {
    first, last := FindPair(a, begin, end, lt, m);
    already := first >= last;
    if !already {
      SwapPermutes(a[..], a[..][first := a[last]][last := a[first]], first, last, begin + 1, end);
      a[first], a[last] := a[last], a[first];
      first := first + 1;
    }
  }

  /** The block loop and what follows it: splits the rest of the range around the pivot. */
  method BlockSplit<T(!new)>(a: array<T>, begin: int, end: int, pivot: T, lt: (T, T) -> bool,
                             blockSize: int, first0: int, last0: int)
    returns (split: int)
    requires 0 <= begin <= first0 <= last0 + 1 && last0 <= end <= a.Length && first0 <= end && 0 <= last0
    requires blockSize > 0
    requires AllLess(lt, a[..], begin, first0, pivot) && NoneLess(lt, a[..], Top(first0, last0), end, pivot)
    modifies a
    ensures Permuted(old(a[..]), a[..], begin, end)
    ensures first0 <= split <= end
    ensures AllLess(lt, a[..], begin, split, pivot) && NoneLess(lt, a[..], split, end, pivot)
  {
    hide AllLess, NoneLess;
    var first, last := first0, last0;
    var offL, offR := new int[blockSize], new int[blockSize];
    var numL, numR, startL, startR := 0, 0, 0, 0;
    while last - first > 2 * blockSize
      invariant first0 <= first <= last + 1 && 0 <= last <= end && first <= end
      invariant Permuted(old(a[..]), a[..], begin, end)
      invariant AllLess(lt, a[..], begin, first, pivot) && NoneLess(lt, a[..], Top(first, last), end, pivot)
      invariant numL == 0 || numR == 0
      invariant numL != 0 || numR != 0 ==> blockSize <= last - first
      invariant Pending(lt, a[..], pivot, false, first, blockSize, offL[..], startL, numL)
      invariant Pending(lt, a[..], pivot, true, last, blockSize, offR[..], startR, numR)
      decreases last - first
    {
      ghost var s, low, high := a[..], first, last;
      first, last, startL, numL, startR, numR :=
        FillAndExchange(a, pivot, lt, first, last, blockSize, blockSize, offL, offR, startL, numL, startR, numR, true);
      Settled(lt, s, a[..], pivot, begin, low, first, last, high, end);
      PermutedTrans(old(a[..]), s, a[..], begin, end);
    }
    ghost var s := a[..];
    split := LastBlocks(a, pivot, lt, first, last, offL, offR, startL, numL, startR, numR);
    Settled(lt, s, a[..], pivot, begin, first, split, split, last, end);
    PermutedTrans(old(a[..]), s, a[..], begin, end);
  }

  /** The branchless right partition promises what the plain one does. */
  method PartitionRightBranchless<T(!new)>(a: array<T>, begin: int, end: int, lt: (T, T) -> bool,
                                           blockSize: int, ghost m: int)
    returns (pos: int, already: bool)
    requires 0 <= begin < m < end <= a.Length && !lt(a[m], a[begin])
    requires blockSize > 0
    modifies a
    ensures PartitionedRight(lt, old(a[..]), a[..], begin, end, pos, already)
  {
    var pivot := a[begin];
    var first, last;
    first, last, already := FirstPair(a, begin, end, lt, m);
    var split := BlockSplit(a, begin + 1, end, pivot, lt, blockSize, first, last);
    pos := split - 1;
    PlacePivot(a, begin, end, pos, lt);
  }
}
