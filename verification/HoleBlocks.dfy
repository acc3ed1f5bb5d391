/** Blocks with offset buffers and a moving hole, from EdelkampWeiss/partition.h. */
module HoleBlocks {
  import opened Orders
  import opened PdqBranchless

  /** Position k of a block, up from base on the left and down from base on the right. */
  function At(right: bool, base: int, k: int): int {
    if right then base - k else base + k
  }

  ghost predicate InRange<T(!new)>(s: seq<T>, right: bool, base: int, size: int) {
    forall k :: 0 <= k < size ==> 0 <= At(right, base, k) < |s|
  }

  /** May go to the other side: on the left not less, on the right not greater than the pivot. */
  ghost predicate Movable<T(!new)>(lt: (T, T) -> bool, x: T, p: T, right: bool) {
    if right then !lt(p, x) else !lt(x, p)
  }

  /** May stay: on the left not greater, on the right not less than the pivot. */
  ghost predicate Placed<T(!new)>(lt: (T, T) -> bool, x: T, p: T, right: bool) {
    if right then !lt(x, p) else !lt(p, x)
  }

  ghost predicate Ascending(list: seq<int>, size: int) {
    && (forall j :: 0 <= j < |list| ==> 0 <= list[j] < size)
    && (forall i, j :: 0 <= i < j < |list| ==> list[i] < list[j])
  }

  /** The list names positions that may go over, and every position it does not name may stay. */
  ghost predicate Listed<T(!new)>(lt: (T, T) -> bool, u: seq<T>, p: T, right: bool, base: int, size: int, list: seq<int>) {
    && InRange(u, right, base, size) && Ascending(list, size)
    && (forall j :: 0 <= j < |list| ==> Movable(lt, u[At(right, base, list[j])], p, right))
    && (forall k :: 0 <= k < size && k !in list ==> Placed(lt, u[At(right, base, k)], p, right))
  }

  // ----- filling -----

  /** One scanned position is appended if it may go over. */
  lemma ListedNext<T(!new)>(lt: (T, T) -> bool, u: seq<T>, p: T, right: bool, base: int, size: int, list: seq<int>)
    requires StrictWeak(lt) && 0 <= size && Listed(lt, u, p, right, base, size, list)
    requires 0 <= At(right, base, size) < |u|
    ensures var x := u[At(right, base, size)];
            Listed(lt, u, p, right, base, size + 1, if Movable(lt, x, p, right) then list + [size] else list)
  {
    hide StrictWeak;
    var x := u[At(right, base, size)];
    Asymmetric(lt, x, p);
    var next := if Movable(lt, x, p, right) then list + [size] else list;
    forall j | 0 <= j < |next|
      ensures 0 <= next[j] < size + 1 && Movable(lt, u[At(right, base, next[j])], p, right)
    {
      if j < |list| { assert next[j] == list[j]; }
    }
    forall k | 0 <= k < size + 1 && k !in next
      ensures Placed(lt, u[At(right, base, k)], p, right)
    {
      if k < size {
        assert k !in list;
      } else {
        assert next == list;
      }
    }
  }

  /** Scans positions from..to-1 of a left block and appends those not less than the pivot. */
  method AppendLeft<T(!new)>(a: array<T>, begin: int, from: int, to: int, pivot: T, lt: (T, T) -> bool,
                             buf: array<int>, start: int, pos0: int, ghost u: seq<T>)
    returns (pos: int)
    requires StrictWeak(lt) && (buf as object) != a && |u| == a.Length
    requires 0 <= from && 0 <= start <= pos0 && pos0 + (if from < to then to - from else 0) <= buf.Length
    requires InRange(u, false, begin, to) && forall k :: from <= k < to ==> a[At(false, begin, k)] == u[At(false, begin, k)]
    requires Listed(lt, u, pivot, false, begin, from, buf[start..pos0])
    requires from < to ==> 0 <= begin + from && begin + to <= |u|
    modifies buf
    ensures pos0 <= pos <= buf.Length
    ensures forall i :: 0 <= i < pos0 ==> buf[i] == old(buf[i])
    ensures forall i :: pos0 <= i < pos ==> from <= buf[i]
    ensures Listed(lt, u, pivot, false, begin, if from < to then to else from, buf[start..pos])
    ensures pos - pos0 == if from < to then Duplicates(lt, u, begin + from, begin + to, pivot, false) else 0
  {
    hide Listed, Duplicates;
    if from < to {
      DuplicatesNone(lt, u, begin + from, pivot, false);
    }
    pos := pos0;
    var j := from;
    while j < to
      invariant from <= j && (j <= to || j == from) && pos0 <= pos <= pos0 + (j - from)
      invariant a[..] == old(a[..])
      invariant forall i :: 0 <= i < pos0 ==> buf[i] == old(buf[i])
      invariant forall i :: pos0 <= i < pos ==> from <= buf[i]
      invariant Listed(lt, u, pivot, false, begin, j, buf[start..pos])
      invariant from < to ==> pos - pos0 == Duplicates(lt, u, begin + from, begin + j, pivot, false)
      invariant from >= to ==> j == from && pos == pos0
    {
      assert At(false, begin, j) == begin + j;
      DuplicatesNext(lt, u, begin + from, begin + j, pivot, false);
      ListedNext(lt, u, pivot, false, begin, j, buf[start..pos]);
      ghost var list := buf[start..pos];
      buf[pos] := j;
      assert buf[start..pos] == list && buf[start..pos + 1] == list + [j];
      pos := pos + (if !lt(a[begin + j], pivot) then 1 else 0);
      j := j + 1;
    }
  }

  /** Scans positions from..to-1 of a right block and appends those not greater than the pivot. */
  method AppendRight<T(!new)>(a: array<T>, last: int, from: int, to: int, pivot: T, lt: (T, T) -> bool,
                              buf: array<int>, start: int, pos0: int, ghost u: seq<T>)
    returns (pos: int)
    requires StrictWeak(lt) && (buf as object) != a && |u| == a.Length
    requires 0 <= from && 0 <= start <= pos0 && pos0 + (if from < to then to - from else 0) <= buf.Length
    requires InRange(u, true, last, to) && forall k :: from <= k < to ==> a[At(true, last, k)] == u[At(true, last, k)]
    requires Listed(lt, u, pivot, true, last, from, buf[start..pos0])
    requires from < to ==> 0 <= last - to + 1 && last - from + 1 <= |u|
    modifies buf
    ensures pos0 <= pos <= buf.Length
    ensures forall i :: 0 <= i < pos0 ==> buf[i] == old(buf[i])
    ensures forall i :: pos0 <= i < pos ==> from <= buf[i]
    ensures Listed(lt, u, pivot, true, last, if from < to then to else from, buf[start..pos])
    ensures pos - pos0 == if from < to then Duplicates(lt, u, last - to + 1, last - from + 1, pivot, true) else 0
  {
    hide Listed, Duplicates;
    if from < to {
      DuplicatesNone(lt, u, last - from + 1, pivot, true);
    }
    pos := pos0;
    var j := from;
    while j < to
      invariant from <= j && (j <= to || j == from) && pos0 <= pos <= pos0 + (j - from)
      invariant a[..] == old(a[..])
      invariant forall i :: 0 <= i < pos0 ==> buf[i] == old(buf[i])
      invariant forall i :: pos0 <= i < pos ==> from <= buf[i]
      invariant Listed(lt, u, pivot, true, last, j, buf[start..pos])
      invariant from < to ==> pos - pos0 == Duplicates(lt, u, last - j + 1, last - from + 1, pivot, true)
      invariant from >= to ==> j == from && pos == pos0
    {
      assert At(true, last, j) == last - j;
      DuplicatesBefore(lt, u, last - j, last - from + 1, pivot, true);
      ListedNext(lt, u, pivot, true, last, j, buf[start..pos]);
      ghost var list := buf[start..pos];
      buf[pos] := j;
      assert buf[start..pos] == list && buf[start..pos + 1] == list + [j];
      pos := pos + (if !lt(pivot, a[last - j]) then 1 else 0);
      j := j + 1;
    }
  }

  // ----- exchanging through the hole -----

  /** Left cells ls and right cells rs of disjoint ranges lo..mid-1 and mid..hi-1; the hole is in the
      upper one but none of the cells. */
  ghost predicate Disjoint(begin: int, last: int, ls: seq<int>, rs: seq<int>, hole: int, lo: int, mid: int, hi: int) {
    && |ls| == |rs| && 0 <= lo <= mid <= hole < hi
    && (forall j :: 0 <= j < |ls| ==> lo <= begin + ls[j] < mid)
    && (forall j :: 0 <= j < |rs| ==> mid <= last - rs[j] < hi && last - rs[j] != hole)
    && (forall i, j :: 0 <= i < j < |ls| ==> ls[i] < ls[j])
    && (forall i, j :: 0 <= i < j < |rs| ==> rs[i] < rs[j])
  }

  /** After the first num exchanges: the old hole and the right cells hold nothing less than the
      pivot, the left cells nothing greater, and no other cell has changed. */
  ghost predicate Traded<T(!new)>(lt: (T, T) -> bool, u: seq<T>, w: seq<T>, p: T, begin: int, last: int,
                                  ls: seq<int>, rs: seq<int>, hole: int, lo: int, mid: int, hi: int, num: int)
    requires Disjoint(begin, last, ls, rs, hole, lo, mid, hi) && hi <= |u| && 0 <= num <= |ls|
  {
    && Permuted(u, w, lo, hi)
    && !lt(w[hole], p)
    && (forall j {:trigger w[LeftAt(begin, ls, j)]} :: 0 <= j < num ==> !lt(p, w[LeftAt(begin, ls, j)]))
    && (forall j {:trigger w[RightAt(last, rs, j)]} :: 0 <= j < num ==> !lt(w[RightAt(last, rs, j)], p))
    && (forall x {:trigger Untouched(x, begin, last, ls, rs, num)} ::
          0 <= x < |u| && x != hole && Untouched(x, begin, last, ls, rs, num) ==> w[x] == u[x])
  }

  /** One trade: the hole h is filled from a left cell, which is filled from the next right cell. */
  lemma TradeStep<T(!new)>(lt: (T, T) -> bool, u: seq<T>, w: seq<T>, w': seq<T>, p: T, begin: int, last: int,
                           ls: seq<int>, rs: seq<int>, hole: int, lo: int, mid: int, hi: int, num: int, h: int)
    requires Disjoint(begin, last, ls, rs, hole, lo, mid, hi) && hi <= |u| && 0 <= num < |ls|
    requires Traded(lt, u, w, p, begin, last, ls, rs, hole, lo, mid, hi, num) && !lt(p, p)
    requires h == (if num == 0 then hole else RightAt(last, rs, num - 1)) && w[h] == p
    requires !lt(u[LeftAt(begin, ls, num)], p) && !lt(p, u[RightAt(last, rs, num)])
    requires var l, r := LeftAt(begin, ls, num), RightAt(last, rs, num); w' == w[h := w[l]][l := w[r]][r := p]
    ensures Traded(lt, u, w', p, begin, last, ls, rs, hole, lo, mid, hi, num + 1)
  {
    var l, r := LeftAt(begin, ls, num), RightAt(last, rs, num);
    assert num > 0 ==> rs[num - 1] < rs[num];
    assert w[l] == u[l] && w[r] == u[r] by {
      assert Untouched(l, begin, last, ls, rs, num) && Untouched(r, begin, last, ls, rs, num);
    }
    assert w[h := p] == w;
    HoleMove(w, h, l, r, p, lo, hi);
    PermutedTrans(u, w, w', lo, hi);
    TradeCells(lt, u, w, w', p, begin, last, ls, rs, hole, lo, mid, hi, num, h);
  }

  lemma TradeCells<T(!new)>(lt: (T, T) -> bool, u: seq<T>, w: seq<T>, w': seq<T>, p: T, begin: int, last: int,
                            ls: seq<int>, rs: seq<int>, hole: int, lo: int, mid: int, hi: int, num: int, h: int)
    requires Disjoint(begin, last, ls, rs, hole, lo, mid, hi) && hi <= |u| && 0 <= num < |ls| && |w| == |w'| == |u|
    requires Traded(lt, u, w, p, begin, last, ls, rs, hole, lo, mid, hi, num) && !lt(p, p)
    requires h == (if num == 0 then hole else RightAt(last, rs, num - 1))
    requires var l, r := LeftAt(begin, ls, num), RightAt(last, rs, num);
             && w' == w[h := w[l]][l := w[r]][r := p] && !lt(w[l], p) && !lt(p, w[r]) && r != h && l != h && l != r
    ensures !lt(w'[hole], p)
    ensures forall j {:trigger w'[LeftAt(begin, ls, j)]} :: 0 <= j < num + 1 ==> !lt(p, w'[LeftAt(begin, ls, j)])
    ensures forall j {:trigger w'[RightAt(last, rs, j)]} :: 0 <= j < num + 1 ==> !lt(w'[RightAt(last, rs, j)], p)
    ensures forall x {:trigger Untouched(x, begin, last, ls, rs, num + 1)} ::
              0 <= x < |u| && x != hole && Untouched(x, begin, last, ls, rs, num + 1) ==> w'[x] == u[x]
  {
    hide Permuted;
    var l, r := LeftAt(begin, ls, num), RightAt(last, rs, num);
    forall j | 0 <= j < num + 1
      ensures !lt(p, w'[LeftAt(begin, ls, j)])
    {
      if j < num {
        assert ls[j] < ls[num] && w'[LeftAt(begin, ls, j)] == w[LeftAt(begin, ls, j)];
      }
    }
    forall j | 0 <= j < num + 1
      ensures !lt(w'[RightAt(last, rs, j)], p)
    {
      if j < num - 1 {
        assert rs[j] < rs[num - 1] < rs[num] && w'[RightAt(last, rs, j)] == w[RightAt(last, rs, j)];
      }
    }
    forall x {:trigger Untouched(x, begin, last, ls, rs, num + 1)} | 0 <= x < |u| && x != hole && Untouched(x, begin, last, ls, rs, num + 1)
      ensures w'[x] == u[x]
    {
      assert Untouched(x, begin, last, ls, rs, num) && x != l && x != r && x != h;
    }
  }

  /** The contents with the pivot put back into the hole. */
  ghost function Filled<T(!new)>(s: seq<T>, hole: int, p: T): (r: seq<T>)
    requires 0 <= hole < |s|
    ensures |r| == |s|
  {
    s[hole := p]
  }

  /** Rearranges as many pairs as both lists have: every left element moves to the hole, a right one
      takes its place and leaves the next hole. */
  method Trade<T(!new)>(a: array<T>, begin: int, last: int, ls: seq<int>, rs: seq<int>, hole0: int, lt: (T, T) -> bool,
                        ghost p: T, ghost lo: int, ghost mid: int, ghost hi: int)
    returns (hole: int)
    requires hi <= a.Length && Disjoint(begin, last, ls, rs, hole0, lo, mid, hi) && !lt(p, p)
    requires forall j :: 0 <= j < |ls| ==> !lt(Filled(a[..], hole0, p)[LeftAt(begin, ls, j)], p)
    requires forall j :: 0 <= j < |rs| ==> !lt(p, Filled(a[..], hole0, p)[RightAt(last, rs, j)])
    modifies a
    ensures hole == (if ls == [] then hole0 else RightAt(last, rs, |rs| - 1))
    ensures mid <= hole < hi
    ensures Traded(lt, Filled(old(a[..]), hole0, p), Filled(a[..], hole, p), p, begin, last, ls, rs, hole0, lo, mid, hi, |ls|)
  {
    hide Traded;
    ghost var u := Filled(a[..], hole0, p);
    hole := hole0;
    var num := 0;
    TradeStart(lt, u, p, begin, last, ls, rs, hole0, lo, mid, hi);
    while num < |ls|
      invariant 0 <= num <= |ls|
      invariant hole == (if num == 0 then hole0 else RightAt(last, rs, num - 1)) && mid <= hole < hi
      invariant Traded(lt, u, Filled(a[..], hole, p), p, begin, last, ls, rs, hole0, lo, mid, hi, num)
    {
      var l, r := LeftAt(begin, ls, num), RightAt(last, rs, num);
      assert num > 0 ==> rs[num - 1] < rs[num];
      ghost var w := Filled(a[..], hole, p);
      PassHole(a, l, hole, r);
      assert Filled(a[..], r, p) == w[hole := w[l]][l := w[r]][r := p];
      TradeStep(lt, u, w, Filled(a[..], r, p), p, begin, last, ls, rs, hole0, lo, mid, hi, num, hole);
      hole := r;
      num := num + 1;
    }
  }

  lemma TradeStart<T(!new)>(lt: (T, T) -> bool, u: seq<T>, p: T, begin: int, last: int, ls: seq<int>, rs: seq<int>,
                            hole: int, lo: int, mid: int, hi: int)
    requires hi <= |u| && Disjoint(begin, last, ls, rs, hole, lo, mid, hi) && u[hole] == p && !lt(p, p)
    ensures Traded(lt, u, u, p, begin, last, ls, rs, hole, lo, mid, hi, 0)
  {
  }

  lemma InSplit(list: seq<int>, num: int, k: int)
    requires 0 <= num <= |list|
    ensures k in list <==> k in list[..num] || k in list[num..]
  {
    assert list == list[..num] + list[num..];
  }

  /** What a list means after its first entries have been traded. */
  lemma ListedRest<T(!new)>(lt: (T, T) -> bool, u: seq<T>, w: seq<T>, p: T, right: bool, base: int, size: int, list: seq<int>, num: int)
    requires Listed(lt, u, p, right, base, size, list) && |u| == |w| && 0 <= num <= |list|
    requires forall j :: 0 <= j < num ==> Placed(lt, w[At(right, base, list[j])], p, right)
    requires forall k :: 0 <= k < size && k !in list[..num] ==>
               w[At(right, base, k)] == u[At(right, base, k)] || (k !in list && Placed(lt, w[At(right, base, k)], p, right))
    ensures Listed(lt, w, p, right, base, size, list[num..])
  {
    var rest := list[num..];
    forall j | 0 <= j < |rest|
      ensures Movable(lt, w[At(right, base, rest[j])], p, right)
    {
      assert rest[j] == list[num + j];
      assert rest[j] !in list[..num];
    }
    forall k | 0 <= k < size && k !in rest
      ensures Placed(lt, w[At(right, base, k)], p, right)
    {
      InSplit(list, num, k);
      if k in list[..num] {
        var j :| 0 <= j < num && list[..num][j] == k;
        assert list[j] == k;
      }
    }
  }
}
