/** The moving-hole block partitions of EdelkampWeiss/partition.h. */
module HolePartition {
  import opened Orders
  import opened PdqBranchless
  import opened HoleBlocks
  import PdqPartition

  /** u is the range b0..end-1 of s permuted, with the cells before begin not greater and those
      after last not less than the pivot. */
  ghost predicate Narrowed<T(!new)>(lt: (T, T) -> bool, s: seq<T>, u: seq<T>, p: T, b0: int, begin: int, last: int, end: int) {
    && Permuted(s, u, b0, end) && 0 <= b0 <= begin <= last + 1 <= end <= |u|
    && NoneMore(lt, u, b0, begin, p) && NoneLess(lt, u, last + 1, end, p)
  }

  /** The hole lies above the unknown cells and is not a cell that the right list still names. */
  ghost predicate HoleOk(hole: int, last: int, sizeR: int, list: seq<int>, end: int) {
    && last - sizeR < hole < end
    && forall j :: 0 <= j < |list| ==> last - list[j] != hole
  }

  /** The two blocks fit between begin and last. */
  ghost predicate BlocksFit(begin: int, last: int, sizeL: int, sizeR: int) {
    0 <= sizeL && 0 <= sizeR && begin + sizeL <= last - sizeR + 1
  }

  /** What is traded next satisfies what the trade needs. */
  lemma TradeReady<T(!new)>(lt: (T, T) -> bool, s: seq<T>, u: seq<T>, p: T, b0: int, begin: int, last: int, end: int,
                            sizeL: int, sizeR: int, listL: seq<int>, listR: seq<int>, num: int, hole: int)
    requires Narrowed(lt, s, u, p, b0, begin, last, end) && BlocksFit(begin, last, sizeL, sizeR)
    requires Listed(lt, u, p, false, begin, sizeL, listL) && Listed(lt, u, p, true, last, sizeR, listR)
    requires HoleOk(hole, last, sizeR, listR, end) && 0 <= num <= |listL| && num <= |listR|
    ensures Disjoint(begin, last, listL[..num], listR[..num], hole, b0, begin + sizeL, end)
    ensures forall j :: 0 <= j < num ==> !lt(u[LeftAt(begin, listL[..num], j)], p)
    ensures forall j :: 0 <= j < num ==> !lt(p, u[RightAt(last, listR[..num], j)])
  {
    forall j | 0 <= j < num
      ensures !lt(u[LeftAt(begin, listL[..num], j)], p)
    {
      assert Movable(lt, u[At(false, begin, listL[j])], p, false);
    }
    forall j | 0 <= j < num
      ensures !lt(p, u[RightAt(last, listR[..num], j)])
    {
      assert Movable(lt, u[At(true, last, listR[j])], p, true);
    }
  }

  /** After a trade the left block's list is what remains of it ... */
  lemma LeftTraded<T(!new)>(lt: (T, T) -> bool, s: seq<T>, u: seq<T>, w: seq<T>, p: T, b0: int, begin: int, last: int, end: int,
                            sizeL: int, sizeR: int, listL: seq<int>, listR: seq<int>, num: int, hole: int)
    requires BlocksFit(begin, last, sizeL, sizeR) && Listed(lt, u, p, false, begin, sizeL, listL)
    requires 0 <= num <= |listL| && num <= |listR| && |u| == |w| && end <= |u|
    requires Disjoint(begin, last, listL[..num], listR[..num], hole, b0, begin + sizeL, end)
    requires Traded(lt, u, w, p, begin, last, listL[..num], listR[..num], hole, b0, begin + sizeL, end, num)
    ensures Listed(lt, w, p, false, begin, sizeL, listL[num..])
  {
    hide Permuted;
    var ls, rs := listL[..num], listR[..num];
    forall j | 0 <= j < num
      ensures Placed(lt, w[At(false, begin, listL[j])], p, false)
    {
      assert ls[j] == listL[j] && !lt(p, w[LeftAt(begin, ls, j)]);
    }
    forall k | 0 <= k < sizeL && k !in listL[..num]
      ensures w[At(false, begin, k)] == u[At(false, begin, k)]
    {
      assert Untouched(begin + k, begin, last, ls, rs, num);
    }
    ListedRest(lt, u, w, p, false, begin, sizeL, listL, num);
  }

  /** ... and so is the right block's. */
  lemma RightTraded<T(!new)>(lt: (T, T) -> bool, s: seq<T>, u: seq<T>, w: seq<T>, p: T, b0: int, begin: int, last: int, end: int,
                             sizeL: int, sizeR: int, listL: seq<int>, listR: seq<int>, num: int, hole: int)
    requires BlocksFit(begin, last, sizeL, sizeR) && Listed(lt, u, p, true, last, sizeR, listR)
    requires 0 <= num <= |listL| && num <= |listR| && |u| == |w| && end <= |u|
    requires HoleOk(hole, last, sizeR, listR, end)
    requires Disjoint(begin, last, listL[..num], listR[..num], hole, b0, begin + sizeL, end)
    requires Traded(lt, u, w, p, begin, last, listL[..num], listR[..num], hole, b0, begin + sizeL, end, num)
    ensures Listed(lt, w, p, true, last, sizeR, listR[num..])
  {
    hide Permuted;
    var ls, rs := listL[..num], listR[..num];
    forall j | 0 <= j < num
      ensures Placed(lt, w[At(true, last, listR[j])], p, true)
    {
      assert rs[j] == listR[j] && !lt(w[RightAt(last, rs, j)], p);
    }
    forall k | 0 <= k < sizeR && k !in listR[..num]
      ensures w[At(true, last, k)] == u[At(true, last, k)] || (k !in listR && Placed(lt, w[At(true, last, k)], p, true))
    {
      if last - k != hole {
        assert Untouched(last - k, begin, last, ls, rs, num);
      } else {
        assert !lt(w[hole], p);
        assert k !in listR by {
          assert forall j :: 0 <= j < |listR| ==> last - listR[j] != hole;
        }
      }
    }
    ListedRest(lt, u, w, p, true, last, sizeR, listR, num);
  }

  /** Outside the two blocks nothing changes but the old hole, which stays on its side. */
  lemma NarrowedTraded<T(!new)>(lt: (T, T) -> bool, s: seq<T>, u: seq<T>, w: seq<T>, p: T, b0: int, begin: int, last: int, end: int,
                                sizeL: int, sizeR: int, ls: seq<int>, rs: seq<int>, hole: int)
    requires Narrowed(lt, s, u, p, b0, begin, last, end) && BlocksFit(begin, last, sizeL, sizeR)
    requires forall j :: 0 <= j < |ls| ==> 0 <= ls[j]
    requires forall j :: 0 <= j < |rs| ==> 0 <= rs[j]
    requires last - sizeR < hole
    requires Disjoint(begin, last, ls, rs, hole, b0, begin + sizeL, end)
    requires Traded(lt, u, w, p, begin, last, ls, rs, hole, b0, begin + sizeL, end, |ls|)
    ensures Narrowed(lt, s, w, p, b0, begin, last, end)
  {
    PermutedTrans(s, u, w, b0, end);
    hide Permuted;
    forall x | b0 <= x < begin || last < x < end
      ensures x != hole ==> w[x] == u[x]
    {
      assert Untouched(x, begin, last, ls, rs, |ls|);
    }
  }

  /** A block without entries moves its wall past it. */
  lemma WallsMove<T(!new)>(lt: (T, T) -> bool, s: seq<T>, u: seq<T>, p: T, b0: int, begin: int, last: int, end: int,
                           sizeL: int, sizeR: int, emptyL: bool, emptyR: bool)
    requires Narrowed(lt, s, u, p, b0, begin, last, end) && BlocksFit(begin, last, sizeL, sizeR)
    requires emptyL ==> Listed(lt, u, p, false, begin, sizeL, [])
    requires emptyR ==> Listed(lt, u, p, true, last, sizeR, [])
    ensures Narrowed(lt, s, u, p, b0, if emptyL then begin + sizeL else begin, if emptyR then last - sizeR else last, end)
  {
    if emptyL {
      forall x | begin <= x < begin + sizeL
        ensures !lt(p, u[x])
      {
        assert Placed(lt, u[At(false, begin, x - begin)], p, false);
      }
    }
    if emptyR {
      forall x | last - sizeR < x <= last
        ensures !lt(u[x], p)
      {
        assert Placed(lt, u[At(true, last, last - x)], p, true);
      }
    }
  }

  /** What a trade leaves of both lists, and what it leaves alone. */
  lemma AfterTrade<T(!new)>(lt: (T, T) -> bool, s: seq<T>, u: seq<T>, w: seq<T>, p: T, b0: int, begin: int, last: int, end: int,
                            sizeL: int, sizeR: int, listL: seq<int>, listR: seq<int>, num: int, hole: int)
    requires Narrowed(lt, s, u, p, b0, begin, last, end) && BlocksFit(begin, last, sizeL, sizeR) && |u| == |w|
    requires Listed(lt, u, p, false, begin, sizeL, listL) && Listed(lt, u, p, true, last, sizeR, listR)
    requires 0 <= num <= |listL| && num <= |listR| && HoleOk(hole, last, sizeR, listR, end)
    requires Disjoint(begin, last, listL[..num], listR[..num], hole, b0, begin + sizeL, end)
    requires Traded(lt, u, w, p, begin, last, listL[..num], listR[..num], hole, b0, begin + sizeL, end, num)
    ensures Listed(lt, w, p, false, begin, sizeL, listL[num..]) && Listed(lt, w, p, true, last, sizeR, listR[num..])
    ensures Narrowed(lt, s, w, p, b0, begin, last, end)
    ensures forall x :: begin + sizeL <= x <= last - sizeR ==> 0 <= x < |u| && w[x] == u[x]
  {
    hide Traded, Narrowed, Listed, Disjoint;
    NarrowedEnd(lt, s, u, p, b0, begin, last, end);
    ListedPositions(lt, u, p, false, begin, sizeL, listL);
    ListedPositions(lt, u, p, true, last, sizeR, listR);
    LeftTraded(lt, s, u, w, p, b0, begin, last, end, sizeL, sizeR, listL, listR, num, hole);
    RightTraded(lt, s, u, w, p, b0, begin, last, end, sizeL, sizeR, listL, listR, num, hole);
    NarrowedTraded(lt, s, u, w, p, b0, begin, last, end, sizeL, sizeR, listL[..num], listR[..num], hole);
    UnknownKept(lt, u, w, p, b0, begin, last, end, sizeL, sizeR, listL, listR, num, hole);
  }

  /** The cells between the blocks are not touched. */
  lemma UnknownKept<T(!new)>(lt: (T, T) -> bool, u: seq<T>, w: seq<T>, p: T, b0: int, begin: int, last: int, end: int,
                             sizeL: int, sizeR: int, listL: seq<int>, listR: seq<int>, num: int, hole: int)
    requires 0 <= sizeL && 0 <= sizeR && 0 <= b0 <= begin && last < end <= |u| == |w|
    requires Ascending(listL, sizeL) && Ascending(listR, sizeR) && last - sizeR < hole
    requires 0 <= num <= |listL| && num <= |listR|
    requires Disjoint(begin, last, listL[..num], listR[..num], hole, b0, begin + sizeL, end)
    requires Traded(lt, u, w, p, begin, last, listL[..num], listR[..num], hole, b0, begin + sizeL, end, num)
    ensures forall x :: begin + sizeL <= x <= last - sizeR ==> 0 <= x < |u| && w[x] == u[x]
  {
    hide Permuted;
    forall x | begin + sizeL <= x <= last - sizeR
      ensures 0 <= x < |u| && w[x] == u[x]
    {
      assert Untouched(x, begin, last, listL[..num], listR[..num], num);
    }
  }

  lemma Slices(s: seq<int>, start: int, n: int, num: int)
    requires 0 <= start && 0 <= num <= n && start + n <= |s|
    ensures s[start..start + n][..num] == s[start..start + num]
    ensures s[start..start + n][num..] == s[start + num..start + n]
  {
  }

  /** Trades as many pairs as both lists have and moves the wall of a block whose list is used up. */
  method Rearrange<T(!new)>(a: array<T>, lt: (T, T) -> bool, ghost s: seq<T>, ghost p: T, ghost b0: int, ghost end: int,
                            begin0: int, last0: int, sizeL: int, sizeR: int,
                            bufL: array<int>, bufR: array<int>, startL0: int, numL0: int, startR0: int, numR0: int, hole0: int)
    returns (begin: int, last: int, startL: int, numL: int, startR: int, numR: int, hole: int)
    requires (bufL as object) != a && (bufR as object) != a && !lt(p, p) && 0 <= hole0 < a.Length
    requires 0 <= startL0 && 0 <= numL0 && startL0 + numL0 <= bufL.Length
    requires 0 <= startR0 && 0 <= numR0 && startR0 + numR0 <= bufR.Length
    requires Narrowed(lt, s, Filled(a[..], hole0, p), p, b0, begin0, last0, end) && BlocksFit(begin0, last0, sizeL, sizeR)
    requires Listed(lt, Filled(a[..], hole0, p), p, false, begin0, sizeL, bufL[startL0..startL0 + numL0])
    requires Listed(lt, Filled(a[..], hole0, p), p, true, last0, sizeR, bufR[startR0..startR0 + numR0])
    requires HoleOk(hole0, last0, sizeR, bufR[startR0..startR0 + numR0], end)
    modifies a
    ensures numL == 0 || numR == 0
    ensures numL0 - numL == numR0 - numR
    ensures begin == if numL == 0 then begin0 + sizeL else begin0
    ensures last == if numR == 0 then last0 - sizeR else last0
    ensures startL == startL0 + numL0 - numL && startR == startR0 + numR0 - numR && 0 <= numL <= numL0 && 0 <= numR <= numR0
    ensures 0 <= hole < a.Length && Narrowed(lt, s, Filled(a[..], hole, p), p, b0, begin, last, end)
    ensures forall x :: begin0 + sizeL <= x <= last0 - sizeR ==>
              0 <= x < a.Length && Filled(a[..], hole, p)[x] == Filled(old(a[..]), hole0, p)[x]
    ensures numL != 0 ==> Listed(lt, Filled(a[..], hole, p), p, false, begin, sizeL, bufL[startL..startL + numL])
    ensures numR != 0 ==> Listed(lt, Filled(a[..], hole, p), p, true, last, sizeR, bufR[startR..startR + numR])
    ensures HoleOk(hole, last, if numR == 0 then 0 else sizeR, bufR[startR..startR + numR], end)
  {
    hide Traded, Narrowed, Listed, Disjoint, Filled, HoleOk, Ascending;
    begin, last, startL, numL, startR, numR := begin0, last0, startL0, numL0, startR0, numR0;
    var num := if numL < numR then numL else numR;
    ghost var u, listL, listR := Filled(a[..], hole0, p), bufL[startL..startL + numL], bufR[startR..startR + numR];
    var ls, rs := bufL[startL..startL + num], bufR[startR..startR + num];
    Slices(bufL[..], startL, numL, num);
    Slices(bufR[..], startR, numR, num);
    assert ls == listL[..num];
    assert rs == listR[..num];
    NarrowedEnd(lt, s, u, p, b0, begin, last, end);
    TradeReady(lt, s, u, p, b0, begin, last, end, sizeL, sizeR, listL, listR, num, hole0);
    hole := Trade(a, begin, last, ls, rs, hole0, lt, p, b0, begin + sizeL, end);
    ghost var w := Filled(a[..], hole, p);
    AfterTrade(lt, s, u, w, p, b0, begin, last, end, sizeL, sizeR, listL, listR, num, hole0);
    numL, numR := numL - num, numR - num;
    startL, startR := startL + num, startR + num;
    assert listL[num..] == bufL[startL..startL + numL] && listR[num..] == bufR[startR..startR + numR];
    assert numL == 0 ==> listL[num..] == [];
    assert numR == 0 ==> listR[num..] == [];
    WallsMove(lt, s, w, p, b0, begin, last, end, sizeL, sizeR, numL == 0, numR == 0);
    ListedPositions(lt, u, p, true, last, sizeR, listR);
    HoleKept(hole0, hole, last, sizeR, listR, num, end);
    if numL == 0 { begin := begin + sizeL; }
    if numR == 0 { last := last - sizeR; }
  }

  lemma NarrowedEnd<T(!new)>(lt: (T, T) -> bool, s: seq<T>, u: seq<T>, p: T, b0: int, begin: int, last: int, end: int)
    requires Narrowed(lt, s, u, p, b0, begin, last, end)
    ensures 0 <= b0 <= begin <= last + 1 <= end <= |u|
  {
  }

  lemma ListedPositions<T(!new)>(lt: (T, T) -> bool, u: seq<T>, p: T, right: bool, base: int, size: int, list: seq<int>)
    requires Listed(lt, u, p, right, base, size, list)
    ensures Ascending(list, size)
  {
  }

  lemma HoleKept(hole0: int, hole: int, last: int, sizeR: int, list: seq<int>, num: int, end: int)
    requires HoleOk(hole0, last, sizeR, list, end) && Ascending(list, sizeR) && 0 <= num <= |list| && hole < end
    requires hole == if num == 0 then hole0 else last - list[num - 1]
    ensures HoleOk(hole, last, sizeR, list[num..], end)
    ensures num == |list| ==> HoleOk(hole, last - sizeR, 0, list[num..], end)
  {
    forall j | 0 <= j < |list| - num
      ensures last - list[num..][j] != hole
    {
      assert list[num..][j] == list[num + j];
      assert num > 0 ==> list[num - 1] < list[num + j];
    }
  }

  // ----- the remaining block -----

  lemma LastListed<T(!new)>(lt: (T, T) -> bool, u: seq<T>, p: T, right: bool, base: int, size: int, list: seq<int>)
    requires Listed(lt, u, p, right, base, size, list) && list != [] && list[|list| - 1] == size - 1
    ensures Listed(lt, u, p, right, base, size - 1, list[..|list| - 1]) && 0 < size
    ensures 0 <= At(right, base, size - 1) < |u| && Movable(lt, u[At(right, base, size - 1)], p, right)
  {
    var rest := list[..|list| - 1];
    forall k | 0 <= k < size - 1 && k !in rest
      ensures Placed(lt, u[At(right, base, k)], p, right)
    {
      InSplit(list, |list| - 1, k);
    }
  }

  /** Where position k of the block gets its element from. */
  lemma EndShiftAt<T(!new)>(w: seq<T>, w': seq<T>, right: bool, base: int, size: int, m: int, k: int)
    requires 0 <= m < size - 1 && 0 <= k < size && |w| == |w'|
    requires 0 <= At(right, base, m) < |w| && 0 <= At(right, base, k) < |w|
    requires 0 <= At(right, base, size - 1) < |w| && 0 <= At(right, base, size - 2) < |w|
    requires var x, e, f := At(right, base, m), At(right, base, size - 1), At(right, base, size - 2);
             w' == (if x == f then w[e := w[x]][x := w[e]] else w[e := w[x]][x := w[f]][f := w[e]])
    ensures w'[At(right, base, k)] ==
            if k == size - 1 then w[At(right, base, m)]
            else if k == m && m != size - 2 then w[At(right, base, size - 2)]
            else if k == size - 2 then w[At(right, base, size - 1)]
            else w[At(right, base, k)]
  {
  }

  /** The last listed element and the end of its block change places through a cell kept aside: the
      end takes the element, the element's cell takes the neighbour, whose cell is the new end. */
  lemma EndShift<T(!new)>(lt: (T, T) -> bool, w: seq<T>, w': seq<T>, p: T, right: bool, base: int, size: int, list: seq<int>)
    requires Listed(lt, w, p, right, base, size, list) && list != [] && size - 1 !in list && |w| == |w'|
    requires var m, e, f := At(right, base, list[|list| - 1]), At(right, base, size - 1), At(right, base, size - 2);
             && 0 <= f < |w|
             && w' == (if m == f then w[e := w[m]][m := w[e]] else w[e := w[m]][m := w[f]][f := w[e]])
    ensures Listed(lt, w', p, right, base, size - 1, list[..|list| - 1])
    ensures size - 2 !in list[..|list| - 1]
    ensures Movable(lt, w'[At(right, base, size - 1)], p, right)
  {
    hide At, Movable, Placed;
    var n := |list| - 1;
    var m := list[n];
    assert m < size - 1;
    EndShiftAt(w, w', right, base, size, m, size - 1);
    forall k | 0 <= k < size - 1 && k !in list[..n]
      ensures Placed(lt, w'[At(right, base, k)], p, right)
    {
      EndShiftAt(w, w', right, base, size, m, k);
      InSplit(list, n, k);
      assert list[n..] == [m];
      assert m != size - 2 ==> size - 2 !in list;
    }
    forall j | 0 <= j < n
      ensures Movable(lt, w'[At(right, base, list[..n][j])], p, right)
    {
      assert list[j] < m && Movable(lt, w[At(right, base, list[j])], p, right);
      EndShiftAt(w, w', right, base, size, m, list[j]);
    }
  }

  lemma EndShiftPermutes<T(!new)>(w: seq<T>, w': seq<T>, e: int, m: int, f: int, lo: int, hi: int)
    requires 0 <= lo <= e < hi <= |w| && lo <= m < hi && lo <= f < hi && e != m && e != f
    requires w' == (if m == f then w[e := w[m]][m := w[e]] else w[e := w[m]][m := w[f]][f := w[e]])
    ensures Permuted(w, w', lo, hi)
  {
    if m == f {
      SwapPermutes(w, w', e, m, lo, hi);
    } else {
      assert w[e := w[e]] == w;
      HoleMove(w, e, m, f, w[e], lo, hi);
    }
  }

  lemma NarrowedShift<T(!new)>(lt: (T, T) -> bool, s: seq<T>, w: seq<T>, w': seq<T>, p: T, b0: int, begin: int, last: int, end: int,
                               right: bool, lo: int, hi: int)
    requires Narrowed(lt, s, w, p, b0, begin, last, end) && Permuted(w, w', lo, hi) && begin <= lo <= hi <= last + 1
    requires if right then lo < hi && lo == begin && !lt(p, w'[begin]) else lo < hi && hi == last + 1 && !lt(w'[last], p)
    ensures if right then Narrowed(lt, s, w', p, b0, begin + 1, last, end) else Narrowed(lt, s, w', p, b0, begin, last - 1, end)
  {
  }

  /** Skips the listed positions at the end of a left block: they are where they belong. */
  method SkipLeft<T(!new)>(list: seq<int>, upper0: int, ghost lt: (T, T) -> bool, ghost s: seq<T>, ghost u: seq<T>, ghost p: T,
                           ghost b0: int, ghost begin: int, ghost end: int)
    returns (upper: int, n: int)
    requires Narrowed(lt, s, u, p, b0, begin, begin + upper0, end) && Listed(lt, u, p, false, begin, upper0 + 1, list)
    ensures 0 <= n <= |list| && -1 <= upper <= upper0 && upper0 - upper == |list| - n
    ensures Narrowed(lt, s, u, p, b0, begin, begin + upper, end) && Listed(lt, u, p, false, begin, upper + 1, list[..n])
    ensures n > 0 ==> list[n - 1] < upper
  {
    hide Narrowed, Listed;
    NarrowedEnd(lt, s, u, p, b0, begin, begin + upper0, end);
    upper, n := upper0, |list|;
    assert list[..n] == list;
    while n > 0 && list[n - 1] == upper
      invariant 0 <= n <= |list| && -1 <= upper <= upper0 && upper0 - upper == |list| - n
      invariant Narrowed(lt, s, u, p, b0, begin, begin + upper, end) && Listed(lt, u, p, false, begin, upper + 1, list[..n])
    {
      LastListed(lt, u, p, false, begin, upper + 1, list[..n]);
      assert list[..n][..n - 1] == list[..n - 1];
      NarrowedDown(lt, s, u, p, b0, begin, begin + upper, end);
      upper, n := upper - 1, n - 1;
    }
    ListedPositions(lt, u, p, false, begin, upper + 1, list[..n]);
    assert n > 0 ==> list[..n][n - 1] < upper + 1;
  }

  lemma NarrowedDown<T(!new)>(lt: (T, T) -> bool, s: seq<T>, u: seq<T>, p: T, b0: int, begin: int, last: int, end: int)
    requires Narrowed(lt, s, u, p, b0, begin, last, end) && begin <= last && !lt(u[last], p)
    ensures Narrowed(lt, s, u, p, b0, begin, last - 1, end)
  {
  }

  lemma NarrowedUp<T(!new)>(lt: (T, T) -> bool, s: seq<T>, u: seq<T>, p: T, b0: int, begin: int, last: int, end: int)
    requires Narrowed(lt, s, u, p, b0, begin, last, end) && begin <= last && !lt(p, u[begin])
    ensures Narrowed(lt, s, u, p, b0, begin + 1, last, end)
  {
  }

  /** Moves the listed elements of the last left block to its end; the cell before the block is read
      and written back when all of them are. */
  method SweepLeft<T(!new)>(a: array<T>, lt: (T, T) -> bool, ghost s: seq<T>, ghost p: T, ghost b0: int, ghost end: int,
                            begin: int, last: int, list: seq<int>, ghost hole: int)
    returns (upper: int)
    requires 0 < begin <= last + 1 && last < hole < end <= a.Length && list != []
    requires Narrowed(lt, s, Filled(a[..], hole, p), p, b0, begin, last, end)
    requires Listed(lt, Filled(a[..], hole, p), p, false, begin, last - begin + 1, list)
    modifies a
    ensures begin <= begin + upper + 1 == last + 1 - |list|
    ensures Narrowed(lt, s, Filled(a[..], hole, p), p, b0, begin + upper + 1, begin + upper, end)
  {
    hide Narrowed, Listed;
    ghost var u := Filled(a[..], hole, p);
    var n;
    NarrowedEnd(lt, s, u, p, b0, begin, last, end);
    upper, n := SkipLeft(list, last - begin, lt, s, u, p, b0, begin, end);
    var temp := a[begin + upper];
    assert Filled(a[..], hole, p)[begin + upper := temp] == u;
    if n > 0 || 0 <= upper {
      ListedStart(lt, u, p, false, begin, upper + 1, list[..n]);
    }
    while n > 0
      invariant 0 <= n <= |list| && -1 <= upper == last - begin - |list| + n
      invariant SweepingLeft(lt, s, Filled(a[..], hole, p)[begin + upper := temp], p, b0, begin, upper, end, list[..n])
    {
      ghost var t := a[..];
      SweepingFacts(lt, s, Filled(t, hole, p)[begin + upper := temp], p, b0, begin, upper, end, list[..n]);
      var m := list[n - 1];
      assert m == list[..n][n - 1];
      PassHole(a, begin + m, begin + upper, begin + upper - 1);
      SweepLeftStep(lt, s, t, a[..], p, b0, begin, upper, end, list[..n], hole, temp);
      assert list[..n][..n - 1] == list[..n - 1];
      upper, n := upper - 1, n - 1;
    }
    ghost var v := Filled(a[..], hole, p)[begin + upper := temp];
    assert list[..n] == [];
    SweepingDone(lt, s, v, p, b0, begin, upper, end);
    a[begin + upper] := temp;
    assert Filled(a[..], hole, p) == v;
  }

  /** In the middle of the left sweep: cells above upper are settled, and with the element kept aside
      put at upper the list describes the cells up to there. */
  ghost predicate SweepingLeft<T(!new)>(lt: (T, T) -> bool, s: seq<T>, w: seq<T>, p: T, b0: int, begin: int, upper: int, end: int, list: seq<int>) {
    && Narrowed(lt, s, w, p, b0, begin, begin + upper, end)
    && Listed(lt, w, p, false, begin, upper + 1, list)
    && (list != [] ==> 0 <= upper && upper !in list)
  }

  lemma SweepingFacts<T(!new)>(lt: (T, T) -> bool, s: seq<T>, w: seq<T>, p: T, b0: int, begin: int, upper: int, end: int, list: seq<int>)
    requires SweepingLeft(lt, s, w, p, b0, begin, upper, end, list) && list != []
    ensures 0 <= list[|list| - 1] < upper && begin + upper < end
  {
    assert list[|list| - 1] in list;
  }

  lemma SweepLeftStep<T(!new)>(lt: (T, T) -> bool, s: seq<T>, t: seq<T>, t': seq<T>, p: T, b0: int, begin: int, upper: int, end: int,
                               list: seq<int>, hole: int, temp: T)
    requires 0 <= begin && begin + upper < hole < end <= |t| && list != [] && 0 <= list[|list| - 1] < upper
    requires SweepingLeft(lt, s, t[hole := p][begin + upper := temp], p, b0, begin, upper, end, list)
    requires var e, c, f := begin + upper, begin + list[|list| - 1], begin + upper - 1; t' == t[e := t[c]][c := t[f]]
    ensures SweepingLeft(lt, s, t'[hole := p][begin + upper - 1 := temp], p, b0, begin, upper - 1, end, list[..|list| - 1])
  {
    hide Narrowed, Listed;
    var w, w' := t[hole := p][begin + upper := temp], t'[hole := p][begin + upper - 1 := temp];
    var e, c, f := begin + upper, begin + list[|list| - 1], begin + upper - 1;
    assert w' == if c == f then w[e := w[c]][c := w[e]] else w[e := w[c]][c := w[f]][f := w[e]];
    EndShift(lt, w, w', p, false, begin, upper + 1, list);
    EndShiftPermutes(w, w', e, c, f, begin, begin + upper + 1);
    NarrowedShift(lt, s, w, w', p, b0, begin, begin + upper, end, false, begin, begin + upper + 1);
    ListedPositions(lt, w', p, false, begin, upper, list[..|list| - 1]);
    assert |list| > 1 ==> 0 <= list[..|list| - 1][0] < upper;
  }

  lemma SweepingDone<T(!new)>(lt: (T, T) -> bool, s: seq<T>, w: seq<T>, p: T, b0: int, begin: int, upper: int, end: int)
    requires SweepingLeft(lt, s, w, p, b0, begin, upper, end, [])
    ensures Narrowed(lt, s, w, p, b0, begin + upper + 1, begin + upper, end)
  {
    WallsMove(lt, s, w, p, b0, begin, begin + upper, end, upper + 1, 0, true, false);
  }

  lemma ListedStart<T(!new)>(lt: (T, T) -> bool, u: seq<T>, p: T, right: bool, base: int, size: int, list: seq<int>)
    requires Listed(lt, u, p, right, base, size, list) && (list == [] || list[|list| - 1] < size - 1)
    ensures list != [] ==> 0 < size
    ensures size - 1 !in list
  {
    forall j | 0 <= j < |list|
      ensures list[j] != size - 1
    {
      assert j < |list| - 1 ==> list[j] < list[|list| - 1];
    }
  }

  /** Skips the listed positions at the lower end of a right block. */
  method SkipRight<T(!new)>(list: seq<int>, upper0: int, ghost lt: (T, T) -> bool, ghost s: seq<T>, ghost u: seq<T>, ghost p: T,
                            ghost b0: int, ghost last: int, ghost end: int, ghost hole: int)
    returns (upper: int, n: int)
    requires Narrowed(lt, s, u, p, b0, last - upper0, last, end) && Listed(lt, u, p, true, last, upper0 + 1, list)
    requires HoleOk(hole, last, upper0 + 1, list, end)
    ensures 0 <= n <= |list| && -1 <= upper <= upper0 && upper0 - upper == |list| - n
    ensures Narrowed(lt, s, u, p, b0, last - upper, last, end) && Listed(lt, u, p, true, last, upper + 1, list[..n])
    ensures HoleOk(hole, last, upper + 1, list[..n], end)
    ensures n > 0 ==> list[n - 1] < upper
  {
    hide Narrowed, Listed;
    NarrowedEnd(lt, s, u, p, b0, last - upper0, last, end);
    upper, n := upper0, |list|;
    assert list[..n] == list;
    while n > 0 && list[n - 1] == upper
      invariant 0 <= n <= |list| && -1 <= upper <= upper0 && upper0 - upper == |list| - n
      invariant Narrowed(lt, s, u, p, b0, last - upper, last, end) && Listed(lt, u, p, true, last, upper + 1, list[..n])
      invariant HoleOk(hole, last, upper + 1, list[..n], end)
    {
      LastListed(lt, u, p, true, last, upper + 1, list[..n]);
      assert list[..n][n - 1] == upper;
      assert list[..n][..n - 1] == list[..n - 1];
      NarrowedUp(lt, s, u, p, b0, last - upper, last, end);
      upper, n := upper - 1, n - 1;
    }
    ListedPositions(lt, u, p, true, last, upper + 1, list[..n]);
    assert n > 0 ==> list[..n][n - 1] < upper + 1;
  }

  /** In the middle of the right sweep the hole, at position upper, is the boundary. */
  ghost predicate SweepingRight<T(!new)>(lt: (T, T) -> bool, s: seq<T>, w: seq<T>, p: T, b0: int, last: int, upper: int, end: int, list: seq<int>) {
    && Narrowed(lt, s, w, p, b0, last - upper, last, end)
    && Listed(lt, w, p, true, last, upper + 1, list)
    && (list != [] ==> 0 <= upper) && upper !in list
    && b0 <= last - upper < end && w[last - upper] == p
  }

  /** The first greater element at the lower end goes into the hole and leaves a new one there. */
  lemma SweepRightStart<T(!new)>(lt: (T, T) -> bool, s: seq<T>, t: seq<T>, p: T, b0: int, last: int, upper: int, end: int,
                                 list: seq<int>, hole: int)
    requires 0 <= hole < |t| && !lt(p, p) && -1 <= upper
    requires Narrowed(lt, s, Filled(t, hole, p), p, b0, last - upper, last, end)
    requires Listed(lt, Filled(t, hole, p), p, true, last, upper + 1, list) && (list == [] || list[|list| - 1] < upper)
    requires HoleOk(hole, last, upper + 1, list, end)
    ensures 0 <= last - upper < |t|
    ensures SweepingRight(lt, s, Filled(t[hole := t[last - upper]], last - upper, p), p, b0, last, upper, end, list)
  {
    hide Listed, Permuted, Narrowed;
    var u, h := Filled(t, hole, p), last - upper;
    ListedStart(lt, u, p, true, last, upper + 1, list);
    NarrowedBag(lt, s, u, p, b0, last - upper, last, end);
    var w := Filled(t[hole := t[h]], h, p);
    HoleExchange(t, hole, h, p);
    SwapPermutes(u, w, hole, h, b0, end);
    PermutedTrans(s, u, w, b0, end);
    StartPlaced(lt, s, u, w, p, b0, last, upper, end, list, hole);
  }

  lemma NarrowedBag<T(!new)>(lt: (T, T) -> bool, s: seq<T>, u: seq<T>, p: T, b0: int, begin: int, last: int, end: int)
    requires Narrowed(lt, s, u, p, b0, begin, last, end)
    ensures Permuted(s, u, b0, end) && 0 <= b0 <= begin <= last + 1 <= end <= |u|
  {
  }

  /** Filling the hole from cell h moves the pivot there. */
  lemma HoleExchange<T(!new)>(t: seq<T>, hole: int, h: int, p: T)
    requires 0 <= hole < |t| && 0 <= h < |t|
    ensures var u := Filled(t, hole, p); Filled(t[hole := t[h]], h, p) == u[hole := u[h]][h := u[hole]] == u[hole := u[h]][h := p]
  {
  }

  lemma StartPlaced<T(!new)>(lt: (T, T) -> bool, s: seq<T>, u: seq<T>, w: seq<T>, p: T, b0: int, last: int, upper: int, end: int,
                             list: seq<int>, hole: int)
    requires 0 <= hole < |u| && !lt(p, p) && -1 <= upper && u[hole] == p
    requires Narrowed(lt, s, u, p, b0, last - upper, last, end) && 0 <= last - upper < end
    requires Listed(lt, u, p, true, last, upper + 1, list) && upper !in list
    requires HoleOk(hole, last, upper + 1, list, end)
    requires w == u[hole := u[last - upper]][last - upper := p] && Permuted(s, w, b0, end)
    ensures Narrowed(lt, s, w, p, b0, last - upper, last, end)
    ensures Listed(lt, w, p, true, last, upper + 1, list)
  {
    hide Permuted;
    var h := last - upper;
    assert !lt(u[h], p) by {
      if 0 <= upper {
        assert Placed(lt, u[At(true, last, upper)], p, true);
      }
    }
    forall j | 0 <= j < |list|
      ensures Movable(lt, w[At(true, last, list[j])], p, true)
    {
      assert Movable(lt, u[At(true, last, list[j])], p, true) && list[j] in list;
    }
    forall k | 0 <= k < upper + 1 && k !in list
      ensures Placed(lt, w[At(true, last, k)], p, true)
    {
      assert Placed(lt, u[At(true, last, k)], p, true);
    }
  }

  lemma SweepRightStep<T(!new)>(lt: (T, T) -> bool, s: seq<T>, t: seq<T>, t': seq<T>, p: T, b0: int, last: int, upper: int, end: int,
                                list: seq<int>)
    requires 0 <= last - upper < last - upper + 1 < |t| && list != [] && 0 <= list[|list| - 1] < upper && last < |t|
    requires SweepingRight(lt, s, Filled(t, last - upper, p), p, b0, last, upper, end, list)
    requires var e, c, f := last - upper, last - list[|list| - 1], last - (upper - 1); t' == t[e := t[c]][c := t[f]]
    ensures SweepingRight(lt, s, Filled(t', last - (upper - 1), p), p, b0, last, upper - 1, end, list[..|list| - 1])
  {
    hide Narrowed, Listed;
    var w, w' := Filled(t, last - upper, p), Filled(t', last - (upper - 1), p);
    var e, c, f := last - upper, last - list[|list| - 1], last - (upper - 1);
    assert w' == if c == f then w[e := w[c]][c := w[e]] else w[e := w[c]][c := w[f]][f := w[e]];
    EndShift(lt, w, w', p, true, last, upper + 1, list);
    EndShiftPermutes(w, w', e, c, f, last - upper, last + 1);
    NarrowedShift(lt, s, w, w', p, b0, last - upper, last, end, true, last - upper, last + 1);
    NarrowedEnd(lt, s, w, p, b0, last - upper, last, end);
    ListedPositions(lt, w', p, true, last, upper, list[..|list| - 1]);
    assert |list| > 1 ==> 0 <= list[..|list| - 1][0] < upper;
  }

  lemma SweepingRightFacts<T(!new)>(lt: (T, T) -> bool, s: seq<T>, w: seq<T>, p: T, b0: int, last: int, upper: int, end: int, list: seq<int>)
    requires SweepingRight(lt, s, w, p, b0, last, upper, end, list)
    ensures 0 <= last - upper < end <= |w| && last < |w|
    ensures list != [] ==> 0 <= list[|list| - 1] < upper
    ensures list == [] ==> Narrowed(lt, s, w, p, b0, last - upper, last - upper - 1, end) && w[last - upper] == p
  {
    if list != [] {
      assert list[|list| - 1] in list;
    } else {
      WallsMove(lt, s, w, p, b0, last - upper, last, end, 0, upper + 1, false, true);
    }
  }

  /** Moves the listed elements of the last right block to its lower end, through the hole. */
  method SweepRight<T(!new)>(a: array<T>, lt: (T, T) -> bool, ghost s: seq<T>, ghost p: T, ghost b0: int, ghost end: int,
                             begin: int, last: int, list: seq<int>, hole: int)
    returns (pos: int)
    requires end <= a.Length && 0 <= hole < a.Length && !lt(p, p)
    requires Narrowed(lt, s, Filled(a[..], hole, p), p, b0, begin, last, end)
    requires Listed(lt, Filled(a[..], hole, p), p, true, last, last - begin + 1, list)
    requires HoleOk(hole, last, last - begin + 1, list, end)
    modifies a
    ensures pos == begin + |list|
    ensures 0 <= b0 <= pos < end && Narrowed(lt, s, Filled(a[..], pos, p), p, b0, pos, pos - 1, end)
  {
    hide Narrowed, Listed, SweepingRight, HoleOk;
    NarrowedEnd(lt, s, Filled(a[..], hole, p), p, b0, begin, last, end);
    var upper, n := SkipRight(list, last - begin, lt, s, Filled(a[..], hole, p), p, b0, last, end, hole);
    SweepRightStart(lt, s, a[..], p, b0, last, upper, end, list[..n], hole);
    a[hole] := a[last - upper];
    while n > 0
      invariant 0 <= n <= |list| && -1 <= upper == last - begin - |list| + n && 0 <= last - upper < a.Length
      invariant SweepingRight(lt, s, Filled(a[..], last - upper, p), p, b0, last, upper, end, list[..n])
    {
      ghost var t := a[..];
      SweepingRightFacts(lt, s, Filled(t, last - upper, p), p, b0, last, upper, end, list[..n]);
      var m := list[n - 1];
      assert m == list[..n][n - 1];
      PassHole(a, last - m, last - upper, last - (upper - 1));
      SweepRightStep(lt, s, t, a[..], p, b0, last, upper, end, list[..n]);
      assert list[..n][..n - 1] == list[..n - 1];
      upper, n := upper - 1, n - 1;
    }
    assert list[..n] == [];
    SweepingRightFacts(lt, s, Filled(a[..], last - upper, p), p, b0, last, upper, end, list[..n]);
    pos := last - upper;
    NarrowedEnd(lt, s, Filled(a[..], pos, p), p, b0, pos, pos - 1, end);
  }

  // ----- the block loop -----

  /** Between two rounds at most one block is pending, with its list in its buffer. */
  ghost predicate Between<T(!new)>(lt: (T, T) -> bool, s: seq<T>, u: seq<T>, p: T, b0: int, begin: int, last: int, end: int, size: int,
                                   bufL: seq<int>, bufR: seq<int>, startL: int, numL: int, startR: int, numR: int, hole: int) {
    && Narrowed(lt, s, u, p, b0, begin, last, end) && 0 < size
    && 0 <= startL && 0 <= numL && startL + numL <= |bufL| == size
    && 0 <= startR && 0 <= numR && startR + numR <= |bufR| == size
    && (numL == 0 || numR == 0)
    && (numL != 0 || numR != 0 ==> begin + size < last + 1)
    && (numL != 0 ==> Listed(lt, u, p, false, begin, size, bufL[startL..startL + numL]))
    && (numR != 0 ==> Listed(lt, u, p, true, last, size, bufR[startR..startR + numR]))
    && HoleOk(hole, last, if numR == 0 then 0 else size, bufR[startR..startR + numR], end)
  }

  /** The bookkeeping of the scans. Below lw and from rw on every cell has been scanned once, in the
      original contents r with the pivot's cell filled from the end; in between nothing has changed.
      What the lists hold is what was found on the left and not yet on the right, or the other way. */
  ghost predicate Tally<T(!new)>(lt: (T, T) -> bool, r: seq<T>, u: seq<T>, p: T, b0: int, lw: int, rw: int, end: int, numL: int, numR: int) {
    && 0 <= b0 <= lw <= rw < end <= |r| == |u|
    && numL - numR == Duplicates(lt, r, b0, lw, p, false) - Duplicates(lt, r, rw, end - 1, p, true)
    && (forall x :: lw <= x < rw ==> u[x] == r[x])
  }

  /** How far the left and the right scan have come between two rounds. */
  function LeftEnd(begin: int, size: int, numL: int): int {
    if numL != 0 then begin + size else begin
  }

  function RightEnd(last: int, size: int, numR: int): int {
    if numR != 0 then last + 1 - size else last + 1
  }

  lemma TallyStart<T(!new)>(lt: (T, T) -> bool, r: seq<T>, p: T, b0: int, end: int)
    requires 0 <= b0 < end <= |r|
    ensures Tally(lt, r, Filled(r, end - 1, p), p, b0, b0, end - 1, end, 0, 0)
  {
  }

  lemma TallyParts<T(!new)>(lt: (T, T) -> bool, r: seq<T>, u: seq<T>, p: T, b0: int, lw: int, rw: int, end: int, numL: int, numR: int)
    requires Tally(lt, r, u, p, b0, lw, rw, end, numL, numR)
    ensures 0 <= b0 <= lw <= rw < end <= |r| == |u|
  {
  }

  /** The left scan goes on to lw' and lists what it finds. */
  lemma TallyLeft<T(!new)>(lt: (T, T) -> bool, r: seq<T>, u: seq<T>, p: T, b0: int, lw: int, lw': int, rw: int, end: int, numL: int, numR: int)
    requires Tally(lt, r, u, p, b0, lw, rw, end, numL, numR) && lw <= lw' <= rw
    ensures Tally(lt, r, u, p, b0, lw', rw, end, numL + Duplicates(lt, u, lw, lw', p, false), numR)
  {
    hide Duplicates;
    DuplicatesSplit(lt, r, b0, lw, lw', p, false);
    DuplicatesSame(lt, u, r, lw, lw', p, false);
  }

  /** The same on the right, down to rw'. */
  lemma TallyRight<T(!new)>(lt: (T, T) -> bool, r: seq<T>, u: seq<T>, p: T, b0: int, lw: int, rw': int, rw: int, end: int, numL: int, numR: int)
    requires Tally(lt, r, u, p, b0, lw, rw, end, numL, numR) && lw <= rw' <= rw
    ensures Tally(lt, r, u, p, b0, lw, rw', end, numL, numR + Duplicates(lt, u, rw', rw, p, true))
  {
    hide Duplicates;
    DuplicatesSplit(lt, r, rw', rw, end - 1, p, true);
    DuplicatesSame(lt, u, r, rw', rw, p, true);
  }

  /** Both scans go on and meet. */
  lemma TallyBoth<T(!new)>(lt: (T, T) -> bool, r: seq<T>, u: seq<T>, p: T, b0: int, lw: int, m: int, rw: int, end: int, numL: int, numR: int)
    requires Tally(lt, r, u, p, b0, lw, rw, end, numL, numR) && lw <= m <= rw
    ensures Tally(lt, r, u, p, b0, m, m, end, numL + Duplicates(lt, u, lw, m, p, false), numR + Duplicates(lt, u, m, rw, p, true))
  {
    TallyLeft(lt, r, u, p, b0, lw, m, rw, end, numL, numR);
    TallyRight(lt, r, u, p, b0, m, m, rw, end, numL + Duplicates(lt, u, lw, m, p, false), numR);
  }

  /** A trade takes as much off both lists and touches no cell in between. */
  lemma TallyTraded<T(!new)>(lt: (T, T) -> bool, r: seq<T>, u: seq<T>, w: seq<T>, p: T, b0: int, lw: int, rw: int, end: int,
                             numL: int, numR: int, num: int)
    requires Tally(lt, r, u, p, b0, lw, rw, end, numL, numR) && |w| == |u|
    requires forall x :: lw <= x <= rw - 1 ==> w[x] == u[x]
    ensures Tally(lt, r, w, p, b0, lw, rw, end, numL - num, numR - num)
  {
  }

  ghost predicate Separate<T>(a: array<T>, bufL: array<int>, bufR: array<int>) {
    bufL != bufR && (bufL as object) != a && (bufR as object) != a
  }

  lemma NothingListed<T(!new)>(lt: (T, T) -> bool, u: seq<T>, p: T, right: bool, base: int, buf: seq<int>, start: int)
    requires 0 <= start <= |buf|
    ensures Listed(lt, u, p, right, base, 0, buf[start..start])
  {
  }

  /** Scans a whole left block from scratch. */
  method ScanLeft<T(!new)>(a: array<T>, begin: int, to: int, pivot: T, lt: (T, T) -> bool, buf: array<int>, ghost hole: int)
    returns (num: int)
    requires StrictWeak(lt) && (buf as object) != a && 0 <= to <= buf.Length && 0 <= begin && begin + to <= hole < a.Length
    modifies buf
    ensures 0 <= num <= buf.Length
    ensures Listed(lt, Filled(a[..], hole, pivot), pivot, false, begin, to, buf[0..num])
    ensures num == Duplicates(lt, Filled(a[..], hole, pivot), begin, begin + to, pivot, false)
  {
    ghost var u := Filled(a[..], hole, pivot);
    NothingListed(lt, u, pivot, false, begin, buf[..], 0);
    if to == 0 { DuplicatesNone(lt, u, begin, pivot, false); }
    num := AppendLeft(a, begin, 0, to, pivot, lt, buf, 0, 0, u);
  }

  /** Scans a whole right block from scratch; it does not name the hole, which lies above. */
  method ScanRight<T(!new)>(a: array<T>, last: int, to: int, pivot: T, lt: (T, T) -> bool, buf: array<int>, ghost hole: int, ghost end: int)
    returns (num: int)
    requires StrictWeak(lt) && (buf as object) != a && 0 <= to <= buf.Length && -1 <= last - to && last < hole < end <= a.Length
    modifies buf
    ensures 0 <= num <= buf.Length
    ensures Listed(lt, Filled(a[..], hole, pivot), pivot, true, last, to, buf[0..num])
    ensures HoleOk(hole, last, to, buf[0..num], end)
    ensures num == Duplicates(lt, Filled(a[..], hole, pivot), last - to + 1, last + 1, pivot, true)
  {
    ghost var u := Filled(a[..], hole, pivot);
    if to == 0 { DuplicatesNone(lt, u, last + 1, pivot, true); }
    NothingListed(lt, u, pivot, true, last, buf[..], 0);
    num := AppendRight(a, last, 0, to, pivot, lt, buf, 0, 0, u);
  }

  lemma HoleAbove(hole: int, last: int, sizeR: int, list: seq<int>, end: int)
    requires HoleOk(hole, last, sizeR, list, end)
    ensures last - sizeR < hole < end
  {
  }

  /** One turn of the block loop. */
  method Round<T(!new)>(a: array<T>, lt: (T, T) -> bool, ghost s: seq<T>, p: T, ghost b0: int, ghost end: int, size: int, ghost r: seq<T>,
                        begin0: int, last0: int, bufL: array<int>, bufR: array<int>,
                        startL0: int, numL0: int, startR0: int, numR0: int, hole0: int)
    returns (begin: int, last: int, startL: int, numL: int, startR: int, numR: int, hole: int)
    requires StrictWeak(lt) && Separate(a, bufL, bufR) && last0 - begin0 + 1 > 2 * size && 0 <= hole0 < a.Length && end <= a.Length
    requires Between(lt, s, Filled(a[..], hole0, p), p, b0, begin0, last0, end, size, bufL[..], bufR[..], startL0, numL0, startR0, numR0, hole0)
    requires Tally(lt, r, Filled(a[..], hole0, p), p, b0, LeftEnd(begin0, size, numL0), RightEnd(last0, size, numR0), end, numL0, numR0)
    modifies a, bufL, bufR
    ensures 0 <= hole < a.Length
    ensures LeftEnd(begin, size, numL) == begin0 + size && RightEnd(last, size, numR) == last0 + 1 - size
    ensures Tally(lt, r, Filled(a[..], hole, p), p, b0, begin0 + size, last0 + 1 - size, end, numL, numR)
    ensures Between(lt, s, Filled(a[..], hole, p), p, b0, begin, last, end, size, bufL[..], bufR[..], startL, numL, startR, numR, hole)
    ensures last - begin < last0 - begin0
  {
    hide Narrowed, Listed, Tally, Duplicates, StrictWeak, HoleOk, Filled;
    Irreflexive(lt, p);
    ghost var u := Filled(a[..], hole0, p);
    NarrowedEnd(lt, s, u, p, b0, begin0, last0, end);
    HoleAbove(hole0, last0, if numR0 == 0 then 0 else size, bufR[startR0..startR0 + numR0], end);
    startL, numL, startR, numR := startL0, numL0, startR0, numR0;
    if numL == 0 {
      startL := 0;
      numL := ScanLeft(a, begin0, size, p, lt, bufL, hole0);
      TallyLeft(lt, r, u, p, b0, begin0, begin0 + size, RightEnd(last0, size, numR), end, 0, numR);
    }
    if numR == 0 {
      startR := 0;
      numR := ScanRight(a, last0, size, p, lt, bufR, hole0, end);
      TallyRight(lt, r, u, p, b0, begin0 + size, last0 + 1 - size, last0 + 1, end, numL, 0);
    }
    ghost var foundL, foundR := numL, numR;
    begin, last, startL, numL, startR, numR, hole :=
      Rearrange(a, lt, s, p, b0, end, begin0, last0, size, size, bufL, bufR, startL, numL, startR, numR, hole0);
    TallyTraded(lt, r, u, Filled(a[..], hole, p), p, b0, begin0 + size, last0 + 1 - size, end, foundL, foundR, foundL - numL);
  }

  // ----- the last two blocks -----

  /** The left side's share: half, unless one of the buffers has no room for that. */
  function LeftShare(unknown: int, roomL: int, roomR: int): int {
    if unknown / 2 > roomL then roomL else if unknown - unknown / 2 > roomR then unknown - roomR else unknown / 2
  }

  /** Both pending lists are short enough to go on scanning on both sides. */
  predicate Rebalances(begin: int, last: int, size: int, startL: int, numL: int, startR: int, numR: int) {
    last - begin + 1 - size <= 2 * size - (startR + numR + startL + numL) && numR + numL < size / 3
  }

  /** How many cells the last left block has. */
  function LastSizeL(begin: int, last: int, size: int, startL: int, numL: int, startR: int, numR: int, rebalance: bool): int {
    if numL == 0 && numR == 0 then (last - begin + 1) / 2
    else if rebalance && Rebalances(begin, last, size, startL, numL, startR, numR) then
      LeftShare(last - begin + 1 - size, size - (startL + numL), size - (startR + numR)) + (if numL != 0 then size else 0)
    else if numR != 0 then last - begin + 1 - size
    else size
  }

  /** How the unknown cells beyond a pending block are shared when both buffers have room. */
  method ShareUnknown(unknown: int, roomL: int, roomR: int) returns (shiftL: int, shiftR: int)
    requires 0 < unknown <= roomL + roomR && 0 <= roomL && 0 <= roomR
    ensures shiftL + shiftR == unknown
    ensures 0 <= shiftL <= roomL && 0 <= shiftR <= roomR
    ensures shiftL == LeftShare(unknown, roomL, roomR)
  {
    shiftL := unknown / 2;
    shiftR := unknown - shiftL;
    if shiftL > roomL {
      shiftR := shiftR + (shiftL - roomL);
      shiftL := roomL;
    } else if shiftL < 0 {
      shiftR := shiftR - shiftL;
      shiftL := 0;
    }
    if shiftR > roomR {
      shiftL := shiftL + (shiftR - roomR);
      shiftR := roomR;
    } else if shiftR < 0 {
      shiftL := shiftL - shiftR;
      shiftR := 0;
    }
  }

  /** Everything between the walls lies in one of the two listed blocks. */
  ghost predicate Covered<T(!new)>(lt: (T, T) -> bool, u: seq<T>, p: T, begin: int, last: int, end: int, sizeL: int, sizeR: int,
                                   bufL: seq<int>, bufR: seq<int>, startL: int, numL: int, startR: int, numR: int, hole: int) {
    && 0 <= sizeL && 0 <= sizeR && begin + sizeL == last - sizeR + 1
    && 0 <= startL && 0 <= numL && startL + numL <= |bufL|
    && 0 <= startR && 0 <= numR && startR + numR <= |bufR|
    && Listed(lt, u, p, false, begin, sizeL, bufL[startL..startL + numL])
    && Listed(lt, u, p, true, last, sizeR, bufR[startR..startR + numR])
    && HoleOk(hole, last, sizeR, bufR[startR..startR + numR], end)
  }

  /** Continues the scans behind the pending block and on the other side, each in the room its
      buffer has left. */
  method Rebalance<T(!new)>(a: array<T>, lt: (T, T) -> bool, ghost s: seq<T>, p: T, ghost b0: int, ghost end: int, size: int,
                            begin: int, last: int, bufL: array<int>, bufR: array<int>,
                            startL: int, numL0: int, startR: int, numR0: int, ghost hole: int)
    returns (sizeL: int, sizeR: int, numL: int, numR: int)
    requires StrictWeak(lt) && Separate(a, bufL, bufR) && 0 <= hole < a.Length && end <= a.Length && numL0 + numR0 != 0
    requires Between(lt, s, Filled(a[..], hole, p), p, b0, begin, last, end, size, bufL[..], bufR[..], startL, numL0, startR, numR0, hole)
    requires last - begin + 1 - size <= 2 * size - (startR + numR0 + startL + numL0)
    modifies bufL, bufR
    ensures Covered(lt, Filled(a[..], hole, p), p, begin, last, end, sizeL, sizeR, bufL[..], bufR[..], startL, numL, startR, numR, hole)
    ensures sizeL == LeftShare(last - begin + 1 - size, size - (startL + numL0), size - (startR + numR0)) + (if numL0 != 0 then size else 0)
    ensures 0 <= begin && LeftEnd(begin, size, numL0) <= begin + sizeL <= RightEnd(last, size, numR0) <= a.Length
    ensures numL == numL0 + Duplicates(lt, Filled(a[..], hole, p), LeftEnd(begin, size, numL0), begin + sizeL, p, false)
    ensures numR == numR0 + Duplicates(lt, Filled(a[..], hole, p), begin + sizeL, RightEnd(last, size, numR0), p, true)
  {
    hide Narrowed, Listed, Duplicates;
    ghost var u := Filled(a[..], hole, p);
    NarrowedEnd(lt, s, u, p, b0, begin, last, end);
    var upperL, upperR := startL + numL0, startR + numR0;
    sizeL, sizeR := ShareUnknown(last - begin + 1 - size, size - upperL, size - upperR);
    var fromL, fromR := 0, 0;
    if numL0 != 0 {
      fromL, sizeL := size, sizeL + size;
    } else {
      NothingListed(lt, u, p, false, begin, bufL[..], startL);
    }
    if numR0 != 0 {
      fromR, sizeR := size, sizeR + size;
    } else {
      NothingListed(lt, u, p, true, last, bufR[..], startR);
    }
    numL, numR := ExtendLists(a, lt, p, end, size, begin, last, bufL, bufR, startL, upperL, startR, upperR, fromL, sizeL, fromR, sizeR, hole);
  }

  /** Continues both scans to the sizes given. */
  method ExtendLists<T(!new)>(a: array<T>, lt: (T, T) -> bool, p: T, ghost end: int, ghost size: int, begin: int, last: int,
                              bufL: array<int>, bufR: array<int>, startL: int, upperL0: int, startR: int, upperR0: int,
                              fromL: int, sizeL: int, fromR: int, sizeR: int, ghost hole: int)
    returns (numL: int, numR: int)
    requires StrictWeak(lt) && Separate(a, bufL, bufR) && 0 <= hole < a.Length && end <= a.Length && last - fromR < hole
    requires bufL.Length == bufR.Length == size && 0 <= startL <= upperL0 && 0 <= startR <= upperR0
    requires 0 <= fromL <= sizeL && upperL0 + (sizeL - fromL) <= size && 0 <= fromR <= sizeR && upperR0 + (sizeR - fromR) <= size
    requires 0 <= begin && last < a.Length && begin + sizeL == last - sizeR + 1
    requires Listed(lt, Filled(a[..], hole, p), p, false, begin, fromL, bufL[startL..upperL0])
    requires Listed(lt, Filled(a[..], hole, p), p, true, last, fromR, bufR[startR..upperR0])
    requires HoleOk(hole, last, fromR, bufR[startR..upperR0], end)
    modifies bufL, bufR
    ensures Covered(lt, Filled(a[..], hole, p), p, begin, last, end, sizeL, sizeR, bufL[..], bufR[..], startL, numL, startR, numR, hole)
    ensures numL == upperL0 - startL + Duplicates(lt, Filled(a[..], hole, p), begin + fromL, begin + sizeL, p, false)
    ensures numR == upperR0 - startR + Duplicates(lt, Filled(a[..], hole, p), last - sizeR + 1, last - fromR + 1, p, true)
  {
    hide Listed, HoleOk, Duplicates;
    ghost var u := Filled(a[..], hole, p);
    if fromL == sizeL { DuplicatesNone(lt, u, begin + fromL, p, false); }
    if fromR == sizeR { DuplicatesNone(lt, u, last - fromR + 1, p, true); }
    ghost var listR := bufR[startR..upperR0];
    var upperL := AppendLeft(a, begin, fromL, sizeL, p, lt, bufL, startL, upperL0, u);
    numL := upperL - startL;
    var upperR := AppendRight(a, last, fromR, sizeR, p, lt, bufR, startR, upperR0, u);
    numR := upperR - startR;
    HoleAppended(hole, last, fromR, sizeR, listR, bufR[startR..upperR], end);
  }

  lemma HoleAppended(hole: int, last: int, from: int, size: int, list: seq<int>, more: seq<int>, end: int)
    requires HoleOk(hole, last, from, list, end) && from <= size && |list| <= |more|
    requires forall j :: 0 <= j < |list| ==> more[j] == list[j]
    requires forall j :: |list| <= j < |more| ==> from <= more[j]
    ensures HoleOk(hole, last, size, more, end)
  {
  }

  /** Lists everything that is left: shared evenly, shared out behind the pending block, or given
      whole to the side without one. */
  method LastBlocks<T(!new)>(a: array<T>, lt: (T, T) -> bool, ghost s: seq<T>, p: T, ghost b0: int, ghost end: int, size: int, ghost r: seq<T>,
                             begin: int, last: int, bufL: array<int>, bufR: array<int>,
                             startL0: int, numL0: int, startR0: int, numR0: int, ghost hole: int, rebalance: bool)
    returns (sizeL: int, sizeR: int, startL: int, numL: int, startR: int, numR: int)
    requires StrictWeak(lt) && Separate(a, bufL, bufR) && 0 <= hole < a.Length && end <= a.Length && last - begin + 1 <= 2 * size
    requires Between(lt, s, Filled(a[..], hole, p), p, b0, begin, last, end, size, bufL[..], bufR[..], startL0, numL0, startR0, numR0, hole)
    requires Tally(lt, r, Filled(a[..], hole, p), p, b0, LeftEnd(begin, size, numL0), RightEnd(last, size, numR0), end, numL0, numR0)
    modifies bufL, bufR
    ensures sizeL == LastSizeL(begin, last, size, startL0, numL0, startR0, numR0, rebalance)
    ensures LeftEnd(begin, size, numL0) <= begin + sizeL <= RightEnd(last, size, numR0)
    ensures Tally(lt, r, Filled(a[..], hole, p), p, b0, begin + sizeL, begin + sizeL, end, numL, numR)
    ensures Covered(lt, Filled(a[..], hole, p), p, begin, last, end, sizeL, sizeR, bufL[..], bufR[..], startL, numL, startR, numR, hole)
  {
    hide Narrowed, Listed, Tally, Duplicates, StrictWeak, HoleOk, Filled, LeftShare;
    ghost var u := Filled(a[..], hole, p);
    NarrowedEnd(lt, s, u, p, b0, begin, last, end);
    HoleAbove(hole, last, if numR0 == 0 then 0 else size, bufR[startR0..startR0 + numR0], end);
    TallyParts(lt, r, u, p, b0, LeftEnd(begin, size, numL0), RightEnd(last, size, numR0), end, numL0, numR0);
    startL, numL, startR, numR := startL0, numL0, startR0, numR0;
    if numR == 0 && numL == 0 {
      sizeL := (last - begin + 1) / 2;
      sizeR := last - begin + 1 - sizeL;
      startL, startR := 0, 0;
      numL := ScanLeft(a, begin, sizeL, p, lt, bufL, hole);
      numR := ScanRight(a, last, sizeR, p, lt, bufR, hole, end);
      TallyBoth(lt, r, u, p, b0, begin, begin + sizeL, last + 1, end, 0, 0);
    } else if rebalance && last - begin + 1 - size <= 2 * size - (startR + numR + startL + numL) && numR + numL < size / 3 {
      sizeL, sizeR, numL, numR := Rebalance(a, lt, s, p, b0, end, size, begin, last, bufL, bufR, startL, numL, startR, numR, hole);
      TallyBoth(lt, r, u, p, b0, LeftEnd(begin, size, numL0), begin + sizeL, RightEnd(last, size, numR0), end, numL0, numR0);
    } else if numR != 0 {
      sizeL, sizeR := last - begin - size + 1, size;
      startL := 0;
      numL := ScanLeft(a, begin, sizeL, p, lt, bufL, hole);
      TallyLeft(lt, r, u, p, b0, begin, begin + sizeL, begin + sizeL, end, 0, numR);
    } else {
      sizeL, sizeR := size, last - begin - size + 1;
      startR := 0;
      numR := ScanRight(a, last, sizeR, p, lt, bufR, hole, end);
      TallyRight(lt, r, u, p, b0, begin + sizeL, begin + sizeL, last + 1, end, numL, 0);
    }
  }

  /** What the partition promises once the pivot is at pos. */
  ghost predicate Parted<T(!new)>(lt: (T, T) -> bool, s: seq<T>, t: seq<T>, p: T, b0: int, pos: int, end: int) {
    && Permuted(s, t, b0, end) && 0 <= b0 <= pos < end <= |t| && t[pos] == p
    && NoneMore(lt, t, b0, pos, p) && NoneLess(lt, t, pos + 1, end, p)
  }

  /** How the last blocks ended: the pivot's place, and which of the two blocks, if any, still had
      `count` entries in its list; `shift` is that block's size. */
  datatype Ending = Ending(pos: int, left: bool, right: bool, count: int, shift: int)

  /** The contents with the pivot taken out and its cell filled from the end of the range. */
  ghost function Unpivoted<T(!new)>(s: seq<T>, pivotPos: int, end: int): (r: seq<T>)
    requires 0 <= pivotPos < end <= |s|
    ensures |r| == |s|
  {
    s[pivotPos := s[end - 1]]
  }

  /** How many cells below m, where the scans from both ends meet, the left scan lists ... */
  ghost function FoundLeft<T(!new)>(lt: (T, T) -> bool, s: seq<T>, pivotPos: int, begin: int, m: int, end: int): nat
    requires 0 <= begin <= pivotPos < end <= |s| && begin <= m < end
  {
    Duplicates(lt, Unpivoted(s, pivotPos, end), begin, m, s[pivotPos], false)
  }

  /** ... and how many from m on the right scan lists. */
  ghost function FoundRight<T(!new)>(lt: (T, T) -> bool, s: seq<T>, pivotPos: int, begin: int, m: int, end: int): nat
    requires 0 <= begin <= pivotPos < end <= |s| && begin <= m < end
  {
    Duplicates(lt, Unpivoted(s, pivotPos, end), m, end - 1, s[pivotPos], true)
  }

  lemma {:induction false} DuplicatesAll<T(!new)>(lt: (T, T) -> bool, u: seq<T>, lo: int, hi: int, p: T, right: bool)
    requires 0 <= lo <= hi <= |u| && forall x :: lo <= x < hi ==> !lt(u[x], p) && !lt(p, u[x])
    ensures Duplicates(lt, u, lo, hi, p, right) == hi - lo
    decreases hi
  {
    if lo < hi {
      DuplicatesAll(lt, u, lo, hi - 1, p, right);
      DuplicatesNext(lt, u, lo, hi - 1, p, right);
    } else {
      DuplicatesNone(lt, u, lo, p, right);
    }
  }

  /** Among equal elements all cells may go over, so the pivot goes to the mirror image of the place
      where the scans meet: the middle, up to two blocks. */
  lemma EqualSplit<T(!new)>(lt: (T, T) -> bool, s: seq<T>, pivotPos: int, begin: int, m: int, end: int)
    requires 0 <= begin <= pivotPos < end <= |s| && begin <= m < end
    requires forall x :: begin <= x < end ==> !lt(s[x], s[pivotPos]) && !lt(s[pivotPos], s[x])
    ensures m - FoundLeft(lt, s, pivotPos, begin, m, end) + FoundRight(lt, s, pivotPos, begin, m, end) == begin + (end - 1 - m)
  {
    hide Duplicates;
    var r := Unpivoted(s, pivotPos, end);
    DuplicatesAll(lt, r, begin, m, s[pivotPos], false);
    DuplicatesAll(lt, r, m, end - 1, s[pivotPos], true);
  }

  /** The scans meet in the middle of up to two blocks, and otherwise not within a block of either end. */
  predicate MeetsAt(begin: int, end: int, size: int, m: int) {
    if end - 1 - begin <= 2 * size then m == begin + (end - 1 - begin) / 2 else begin + size <= m <= end - 1 - size
  }

  /** What is left over on one side decides the pivot's place and the last block. */
  ghost predicate EndsBy(ending: Ending, begin: int, end: int, size: int, m: int, found: int, foundR: int) {
    && ending.pos == m - found + foundR
    && (ending.left <==> found > foundR) && (ending.right <==> foundR > found)
    && (found != foundR ==> ending.count == if found > foundR then found - foundR else foundR - found)
    && (found != foundR && end - 1 - begin <= 2 * size ==> ending.shift == if found > foundR then m - begin else end - 1 - m)
  }

  /** From the taking out of the pivot to the last boundary: pos is the pivot's place, held open. */
  method PartitionBlocks<T(!new)>(a: array<T>, begin0: int, end: int, pivotPos: int, lt: (T, T) -> bool, size: int, rebalance: bool)
    returns (ending: Ending, p: T, ghost m: int)
    requires StrictWeak(lt) && 0 < begin0 <= pivotPos < end <= a.Length && 0 < size
    modifies a
    ensures p == old(a[pivotPos])
    ensures begin0 <= ending.pos < end && !(ending.left && ending.right)
    ensures Parted(lt, old(a[..]), Filled(a[..], ending.pos, p), p, begin0, ending.pos, end)
    ensures begin0 <= m < end && MeetsAt(begin0, end, size, m)
    ensures EndsBy(ending, begin0, end, size, m, FoundLeft(lt, old(a[..]), pivotPos, begin0, m, end),
                   FoundRight(lt, old(a[..]), pivotPos, begin0, m, end))
  {
    hide Narrowed, Listed, Permuted, HoleOk, Tally, Duplicates, Between, Covered, Parted;
    ghost var s := a[..];
    var last := end - 1;
    p := a[pivotPos];
    a[pivotPos] := a[last];
    ghost var r := a[..];
    assert r == Unpivoted(s, pivotPos, end);
    var hole := last;
    last := last - 1;
    var begin := begin0;
    var bufL, bufR := new int[size], new int[size];
    var startL, numL, startR, numR := 0, 0, 0, 0;
    Irreflexive(lt, p);
    PartitionStart(lt, s, a[..], p, begin0, pivotPos, end, size, bufL[..], bufR[..]);
    TallyStart(lt, r, p, begin0, end);
    ghost var began := false;
    while last - begin + 1 > 2 * size
      invariant 0 <= hole < a.Length
      invariant Between(lt, s, Filled(a[..], hole, p), p, begin0, begin, last, end, size, bufL[..], bufR[..], startL, numL, startR, numR, hole)
      invariant Tally(lt, r, Filled(a[..], hole, p), p, begin0, LeftEnd(begin, size, numL), RightEnd(last, size, numR), end, numL, numR)
      invariant if began then 2 * size < end - 1 - begin0 && begin0 + size <= LeftEnd(begin, size, numL) && RightEnd(last, size, numR) <= end - 1 - size
                else begin == begin0 && last == end - 2 && numL == 0 && numR == 0
      decreases last - begin
    {
      TallyParts(lt, r, Filled(a[..], hole, p), p, begin0, LeftEnd(begin, size, numL), RightEnd(last, size, numR), end, numL, numR);
      begin, last, startL, numL, startR, numR, hole :=
        Round(a, lt, s, p, begin0, end, size, r, begin, last, bufL, bufR, startL, numL, startR, numR, hole);
      began := true;
    }
    BetweenNarrowed(lt, s, Filled(a[..], hole, p), p, begin0, begin, last, end, size, bufL[..], bufR[..], startL, numL, startR, numR, hole);
    var sizeL, sizeR;
    sizeL, sizeR, startL, numL, startR, numR :=
      LastBlocks(a, lt, s, p, begin0, end, size, r, begin, last, bufL, bufR, startL, numL, startR, numR, hole, rebalance);
    m := begin + sizeL;
    TallyMet(lt, r, Filled(a[..], hole, p), p, begin0, m, end, numL, numR);
    BlocksMeet(lt, s, Filled(a[..], hole, p), p, begin0, begin, last, end, sizeL, sizeR, bufL[..], bufR[..], startL, numL, startR, numR, hole);
    ending := LastTrade(a, lt, s, p, begin0, end, begin, last, sizeL, sizeR, bufL, bufR, startL, numL, startR, numR, hole);
  }

  lemma BetweenNarrowed<T(!new)>(lt: (T, T) -> bool, s: seq<T>, u: seq<T>, p: T, b0: int, begin: int, last: int, end: int, size: int,
                                 bufL: seq<int>, bufR: seq<int>, startL: int, numL: int, startR: int, numR: int, hole: int)
    requires Between(lt, s, u, p, b0, begin, last, end, size, bufL, bufR, startL, numL, startR, numR, hole)
    ensures Narrowed(lt, s, u, p, b0, begin, last, end)
  {
  }

  lemma TallyMet<T(!new)>(lt: (T, T) -> bool, r: seq<T>, u: seq<T>, p: T, b0: int, m: int, end: int, numL: int, numR: int)
    requires Tally(lt, r, u, p, b0, m, m, end, numL, numR)
    ensures 0 <= b0 <= m < end <= |r|
    ensures numL - numR == Duplicates(lt, r, b0, m, p, false) - Duplicates(lt, r, m, end - 1, p, true)
  {
  }

  lemma BlocksMeet<T(!new)>(lt: (T, T) -> bool, s: seq<T>, u: seq<T>, p: T, b0: int, begin: int, last: int, end: int, sizeL: int, sizeR: int,
                            bufL: seq<int>, bufR: seq<int>, startL: int, numL: int, startR: int, numR: int, hole: int)
    requires Covered(lt, u, p, begin, last, end, sizeL, sizeR, bufL, bufR, startL, numL, startR, numR, hole)
    ensures 0 <= sizeL && 0 <= sizeR && begin + sizeL == last - sizeR + 1
  {
  }

  /** The last two lists are traded and what is left over is swept to the boundary. */
  method LastTrade<T(!new)>(a: array<T>, lt: (T, T) -> bool, ghost s: seq<T>, p: T, ghost b0: int, ghost end: int,
                            begin0: int, last0: int, sizeL: int, sizeR: int, bufL: array<int>, bufR: array<int>,
                            startL0: int, numL0: int, startR0: int, numR0: int, hole0: int)
    returns (ending: Ending)
    requires StrictWeak(lt) && Separate(a, bufL, bufR) && 0 < b0 && end <= a.Length && 0 <= hole0 < a.Length
    requires Narrowed(lt, s, Filled(a[..], hole0, p), p, b0, begin0, last0, end) && BlocksFit(begin0, last0, sizeL, sizeR)
    requires Covered(lt, Filled(a[..], hole0, p), p, begin0, last0, end, sizeL, sizeR, bufL[..], bufR[..], startL0, numL0, startR0, numR0, hole0)
    modifies a
    ensures b0 <= ending.pos < end && !(ending.left && ending.right)
    ensures ending.pos == begin0 + sizeL - numL0 + numR0
    ensures (ending.left <==> numL0 > numR0) && (ending.right <==> numR0 > numL0)
    ensures numL0 != numR0 ==> ending.count == (if numL0 > numR0 then numL0 - numR0 else numR0 - numL0)
    ensures numL0 != numR0 ==> ending.shift == (if numL0 > numR0 then sizeL else sizeR)
    ensures Parted(lt, s, Filled(a[..], ending.pos, p), p, b0, ending.pos, end)
  {
    hide Narrowed, Listed, Permuted, HoleOk, Parted;
    Irreflexive(lt, p);
    var begin, last, startL, numL, startR, numR, hole :=
      Rearrange(a, lt, s, p, b0, end, begin0, last0, sizeL, sizeR, bufL, bufR, startL0, numL0, startR0, numR0, hole0);
    ending := Finish(a, lt, s, p, b0, end, begin, last, sizeL, sizeR, bufL, bufR, startL, numL, startR, numR, hole);
  }

  lemma PartitionStart<T(!new)>(lt: (T, T) -> bool, s: seq<T>, t: seq<T>, p: T, b0: int, pivotPos: int, end: int, size: int,
                                bufL: seq<int>, bufR: seq<int>)
    requires 0 <= b0 <= pivotPos < end <= |s| && t == s[pivotPos := s[end - 1]] && p == s[pivotPos]
    requires |bufL| == |bufR| == size && 0 < size && !lt(p, p)
    ensures Between(lt, s, Filled(t, end - 1, p), p, b0, b0, end - 2, end, size, bufL, bufR, 0, 0, 0, 0, end - 1)
  {
    var u := Filled(t, end - 1, p);
    assert u == s[pivotPos := s[end - 1]][end - 1 := s[pivotPos]];
    SwapPermutes(s, u, pivotPos, end - 1, b0, end);
  }

  /** Sweeps the block that still has a list and opens the boundary cell. */
  method Finish<T(!new)>(a: array<T>, lt: (T, T) -> bool, ghost s: seq<T>, ghost p: T, ghost b0: int, ghost end: int,
                         begin: int, last: int, sizeL: int, sizeR: int, bufL: array<int>, bufR: array<int>,
                         startL: int, numL: int, startR: int, numR: int, hole: int)
    returns (ending: Ending)
    requires end <= a.Length && 0 <= hole < a.Length && 0 < b0 && !lt(p, p) && (numL == 0 || numR == 0)
    requires 0 <= startL && 0 <= numL && startL + numL <= bufL.Length
    requires 0 <= startR && 0 <= numR && startR + numR <= bufR.Length
    requires Narrowed(lt, s, Filled(a[..], hole, p), p, b0, begin, last, end)
    requires numL == 0 && numR == 0 ==> begin == last + 1
    requires numL != 0 ==> Listed(lt, Filled(a[..], hole, p), p, false, begin, last - begin + 1, bufL[startL..startL + numL])
    requires numR != 0 ==> Listed(lt, Filled(a[..], hole, p), p, true, last, last - begin + 1, bufR[startR..startR + numR])
    requires HoleOk(hole, last, if numR == 0 then 0 else last - begin + 1, bufR[startR..startR + numR], end)
    modifies a
    ensures b0 <= ending.pos < end && !(ending.left && ending.right)
    ensures ending.pos == (if numL != 0 then last + 1 - numL else begin + numR)
    ensures ending == Ending(ending.pos, numL != 0, numR != 0, if numL != 0 then numL else numR, if numL != 0 then sizeL else sizeR)
    ensures Parted(lt, s, Filled(a[..], ending.pos, p), p, b0, ending.pos, end)
  {
    hide Narrowed, Listed, Permuted;
    NarrowedEnd(lt, s, Filled(a[..], hole, p), p, b0, begin, last, end);
    var pos := begin;
    if numL != 0 {
      var upper := SweepLeft(a, lt, s, p, b0, end, begin, last, bufL[startL..startL + numL], hole);
      pos := begin + upper + 1;
      OpenAt(lt, s, a[..], p, b0, pos, end, hole);
      a[hole] := a[pos];
    } else if numR != 0 {
      pos := SweepRight(a, lt, s, p, b0, end, begin, last, bufR[startR..startR + numR], hole);
      NarrowedParted(lt, s, Filled(a[..], pos, p), p, b0, pos, end);
    } else {
      OpenAt(lt, s, a[..], p, b0, pos, end, hole);
      a[hole] := a[pos];
    }
    ending := Ending(pos, numL != 0, numR != 0, if numL != 0 then numL else numR, if numL != 0 then sizeL else sizeR);
  }

  /** The boundary cell's element goes into the hole and the boundary is open for the pivot. */
  lemma OpenAt<T(!new)>(lt: (T, T) -> bool, s: seq<T>, t: seq<T>, p: T, b0: int, pos: int, end: int, hole: int)
    requires 0 <= pos <= hole < end <= |t| && !lt(p, p)
    requires Narrowed(lt, s, Filled(t, hole, p), p, b0, pos, pos - 1, end)
    ensures b0 <= pos && Parted(lt, s, Filled(t[hole := t[pos]], pos, p), p, b0, pos, end)
  {
    var u := Filled(t, hole, p);
    var w := Filled(t[hole := t[pos]], pos, p);
    assert w == u[hole := u[pos]][pos := u[hole]];
    SwapPermutes(u, w, hole, pos, b0, end);
    PermutedTrans(s, u, w, b0, end);
  }

  lemma NarrowedParted<T(!new)>(lt: (T, T) -> bool, s: seq<T>, u: seq<T>, p: T, b0: int, pos: int, end: int)
    requires Narrowed(lt, s, u, p, b0, pos, pos - 1, end) && 0 <= pos < end && u[pos] == p
    ensures Parted(lt, s, u, p, b0, pos, end)
  {
  }

  /** The first overload: the pivot's final place splits the range. It is as far from where the scans
      meet as one side has more cells that may go over than the other. */
  method BlockPartition<T(!new)>(a: array<T>, begin: int, end: int, pivotPos: int, lt: (T, T) -> bool, size: int)
    returns (pos: int, ghost m: int)
    requires StrictWeak(lt) && 0 < begin <= pivotPos < end <= a.Length && 0 < size
    modifies a
    ensures begin <= pos < end && Parted(lt, old(a[..]), a[..], old(a[pivotPos]), begin, pos, end)
    ensures begin <= m < end && MeetsAt(begin, end, size, m)
    ensures pos == m - FoundLeft(lt, old(a[..]), pivotPos, begin, m, end) + FoundRight(lt, old(a[..]), pivotPos, begin, m, end)
  {
    hide Parted, FoundLeft, FoundRight;
    var ending, p;
    ending, p, m := PartitionBlocks(a, begin, end, pivotPos, lt, size, true);
    pos := ending.pos;
    a[pos] := p;
  }

  // ----- collecting duplicates of the pivot -----

  /** The window pos..pos+len-1 holds elements equal to the pivot; before it nothing is greater and
      after it nothing less. */
  ghost predicate Windowed<T(!new)>(lt: (T, T) -> bool, s: seq<T>, t: seq<T>, p: T, b0: int, pos: int, len: int, end: int) {
    && Permuted(s, t, b0, end) && 0 <= b0 <= pos && 1 <= len && pos + len <= end <= |t|
    && NoneMore(lt, t, b0, pos + len, p) && NoneLess(lt, t, pos, end, p)
  }

  /** Of the cells looked at behind pos, or before it, so many are duplicates that the search goes on
      at cell q. */
  ghost predicate Frequent<T(!new)>(lt: (T, T) -> bool, u: seq<T>, pos: int, q: int, p: T, right: bool)
    requires if right then 0 <= pos + 1 && q <= |u| else 0 <= q + 1 && pos <= |u|
  {
    if right then 4 * (1 + Duplicates(lt, u, pos + 1, q, p, right)) > q - (pos + 1)
    else 4 * (1 + Duplicates(lt, u, q + 1, pos, p, right)) > pos - (q + 1)
  }

  /** Gathers elements equal to the pivot right behind its place while they are frequent enough: the
      window takes exactly the duplicates before the first cell q at which they are not. */
  method GatherRight<T(!new)>(a: array<T>, pos: int, end: int, p: T, lt: (T, T) -> bool, ghost s: seq<T>, ghost b0: int)
    returns (top: int, ghost stop: int)
    requires 0 <= pos < a.Length && end <= a.Length && !lt(p, p)
    requires Parted(lt, s, Filled(a[..], pos, p), p, b0, pos, end)
    modifies a
    ensures pos <= top < end && Windowed(lt, s, Filled(a[..], pos, p), p, b0, pos, top + 1 - pos, end)
    ensures top < stop <= end && top - pos == Duplicates(lt, old(a[..]), pos + 1, stop, p, true)
    ensures stop == end || !Frequent(lt, old(a[..]), pos, stop, p, true)
    ensures forall q :: pos < q < stop ==> Frequent(lt, old(a[..]), pos, q, p, true)
    ensures PdqPartition.AllMore(lt, a[..], top + 1, stop, p) && forall x :: stop <= x < end ==> a[x] == old(a[x])
  {
    hide Windowed, Parted, Duplicates;
    ghost var u0 := a[..];
    top := pos;
    var q := pos + 1;
    var countSwaps, countSteps := 1, 0;
    WindowStart(lt, s, Filled(a[..], pos, p), p, b0, pos, end);
    DuplicatesNone(lt, u0, q, p, true);
    while q < end && 4 * countSwaps > countSteps
      invariant pos <= top < q <= end
      invariant Windowed(lt, s, Filled(a[..], pos, p), p, b0, pos, top + 1 - pos, end)
      invariant countSteps == q - (pos + 1) && countSwaps == 1 + Duplicates(lt, u0, pos + 1, q, p, true) == top + 1 - pos
      invariant forall k :: pos < k < q ==> Frequent(lt, u0, pos, k, p, true)
      invariant PdqPartition.AllMore(lt, a[..], top + 1, q, p) && forall x :: q <= x < end ==> a[x] == u0[x]
      decreases end - q
    {
      DuplicatesNext(lt, u0, pos + 1, q, p, true);
      assert Frequent(lt, u0, pos, q, p, true);
      if !lt(p, a[q]) {
        ghost var v, u := a[..], Filled(a[..], pos, p);
        WindowUp(lt, s, u, p, b0, pos, top, end, q);
        top := top + 1;
        countSwaps := countSwaps + 1;
        a[q], a[top] := a[top], a[q];
        assert Filled(a[..], pos, p) == u[q := u[top]][top := u[q]];
        assert top < q ==> lt(p, v[top]);
      }
      q := q + 1;
      countSteps := countSteps + 1;
    }
    stop := q;
  }

  lemma WindowStart<T(!new)>(lt: (T, T) -> bool, s: seq<T>, u: seq<T>, p: T, b0: int, pos: int, end: int)
    requires Parted(lt, s, u, p, b0, pos, end) && !lt(p, p)
    ensures Windowed(lt, s, u, p, b0, pos, 1, end)
    ensures 0 <= b0 <= pos < end <= |u|
  {
  }

  lemma WindowUp<T(!new)>(lt: (T, T) -> bool, s: seq<T>, u: seq<T>, p: T, b0: int, pos: int, top: int, end: int, q: int)
    requires pos <= top < q < end && Windowed(lt, s, u, p, b0, pos, top + 1 - pos, end) && !lt(p, u[q])
    ensures Windowed(lt, s, u[q := u[top + 1]][top + 1 := u[q]], p, b0, pos, top + 2 - pos, end)
  {
    var w := u[q := u[top + 1]][top + 1 := u[q]];
    SwapPermutes(u, w, q, top + 1, b0, end);
    PermutedTrans(s, u, w, b0, end);
  }

  /** The mirror image below the pivot's place; the first cell of the range is not looked at. */
  method GatherLeft<T(!new)>(a: array<T>, b0: int, pos: int, end: int, p: T, lt: (T, T) -> bool, ghost s: seq<T>)
    returns (low: int, ghost stop: int)
    requires 0 <= pos < a.Length && end <= a.Length && !lt(p, p)
    requires Parted(lt, s, Filled(a[..], pos, p), p, b0, pos, end)
    modifies a
    ensures b0 <= low <= pos && Windowed(lt, s, Filled(a[..], pos, p), p, b0, low, pos + 1 - low, end)
    ensures 0 <= b0 && -1 <= stop < low && pos - low == Duplicates(lt, old(a[..]), stop + 1, pos, p, false)
    ensures stop <= b0 || !Frequent(lt, old(a[..]), pos, stop, p, false)
    ensures forall q :: stop < q < pos ==> b0 < q && Frequent(lt, old(a[..]), pos, q, p, false)
    ensures AllLess(lt, a[..], stop + 1, low, p) && forall x :: b0 <= x <= stop ==> a[x] == old(a[x])
  {
    hide Windowed, Parted, Duplicates;
    ghost var u0 := a[..];
    low := pos;
    var q := pos - 1;
    var countSwaps, countSteps := 1, 0;
    WindowStart(lt, s, Filled(a[..], pos, p), p, b0, pos, end);
    DuplicatesNone(lt, u0, pos, p, false);
    while q > b0 && 4 * countSwaps > countSteps
      invariant b0 <= low <= pos && q < low && (q >= b0 || q == pos - 1)
      invariant Windowed(lt, s, Filled(a[..], pos, p), p, b0, low, pos + 1 - low, end)
      invariant countSteps == pos - (q + 1) && countSwaps == 1 + Duplicates(lt, u0, q + 1, pos, p, false) == pos + 1 - low
      invariant forall k :: q < k < pos ==> b0 < k && Frequent(lt, u0, pos, k, p, false)
      invariant AllLess(lt, a[..], q + 1, low, p) && forall x :: b0 <= x <= q ==> a[x] == u0[x]
      decreases q
    {
      DuplicatesBefore(lt, u0, q, pos, p, false);
      assert Frequent(lt, u0, pos, q, p, false);
      if !lt(a[q], p) {
        ghost var v, u := a[..], Filled(a[..], pos, p);
        WindowDown(lt, s, u, p, b0, low, pos, end, q);
        low := low - 1;
        countSwaps := countSwaps + 1;
        a[q], a[low] := a[low], a[q];
        assert Filled(a[..], pos, p) == u[q := u[low]][low := u[q]];
        assert q < low ==> lt(v[low], p);
      }
      q := q - 1;
      countSteps := countSteps + 1;
    }
    stop := q;
  }

  lemma WindowDown<T(!new)>(lt: (T, T) -> bool, s: seq<T>, u: seq<T>, p: T, b0: int, low: int, pos: int, end: int, q: int)
    requires b0 <= q < low <= pos && Windowed(lt, s, u, p, b0, low, pos + 1 - low, end) && !lt(u[q], p)
    ensures Windowed(lt, s, u[q := u[low - 1]][low - 1 := u[q]], p, b0, low - 1, pos + 2 - low, end)
  {
    var w := u[q := u[low - 1]][low - 1 := u[q]];
    SwapPermutes(u, w, q, low - 1, b0, end);
    PermutedTrans(s, u, w, b0, end);
  }

  /** The pivot repeats a cell of its sample next to the range. */
  predicate Repeats<T>(lt: (T, T) -> bool, before: T, p: T, after: T) {
    !lt(p, after) || !lt(before, p)
  }

  /** A small range of which one block has nearly all its cells left over. */
  predicate BadlySplit(begin: int, end: int, size: int, m: int, found: int, foundR: int) {
    && end - 1 - begin <= 2 * size && 48 < end - 2 - begin
    && 15 * (if found > foundR then m - begin else end - 1 - m) / 16 <= (if found > foundR then found - foundR else foundR - found)
  }

  /** Behind the window all cells up to stop are greater: the search went on to the end, or until the
      window was no more than a quarter of the cells looked at. */
  ghost predicate SearchedUp<T(!new)>(lt: (T, T) -> bool, t: seq<T>, p: T, pos: int, len: int, stop: int, end: int)
    requires 0 <= pos && 0 <= len && end <= |t|
  {
    && pos + len <= stop <= end && PdqPartition.AllMore(lt, t, pos + len, stop, p)
    && (stop == end || 4 * len <= stop - (pos + 1))
  }

  /** The mirror image before the window, whose last cell is the pivot's place. */
  ghost predicate SearchedDown<T(!new)>(lt: (T, T) -> bool, t: seq<T>, p: T, pos: int, len: int, stop: int, begin: int)
    requires 0 <= pos <= |t|
  {
    && -1 <= stop < pos && AllLess(lt, t, stop + 1, pos, p)
    && (stop <= begin || 4 * len <= pos + len - 2 - stop)
  }

  /** The second overload: where the sample repeats or a small array splits badly, duplicates of the
      pivot are gathered into a window next to it. */
  method BlockPartitionEqual<T(!new)>(a: array<T>, begin: int, end: int, pivotPos: int, lt: (T, T) -> bool, size: int)
    returns (pos: int, pivotLength: int, ghost m: int, ghost stop: int)
    requires StrictWeak(lt) && 0 < begin <= pivotPos < end < a.Length && 0 < size
    modifies a
    ensures begin <= pos && Windowed(lt, old(a[..]), a[..], old(a[pivotPos]), begin, pos, pivotLength, end)
    ensures begin <= m < end && MeetsAt(begin, end, size, m)
    ensures var p, L, R := old(a[pivotPos]), FoundLeft(lt, old(a[..]), pivotPos, begin, m, end), FoundRight(lt, old(a[..]), pivotPos, begin, m, end);
            if L == R || (!Repeats(lt, old(a[begin - 1]), p, old(a[end])) && !BadlySplit(begin, end, size, m, L, R))
              then pivotLength == 1 && pos == m - L + R
            else if L > R then pos == m - (L - R) && SearchedUp(lt, a[..], p, pos, pivotLength, stop, end)
            else pos + pivotLength - 1 == m + (R - L) && SearchedDown(lt, a[..], p, pos, pivotLength, stop, begin)
  {
    hide Windowed, Parted, Duplicates, FoundLeft, FoundRight;
    var doublePivotCheck := !lt(a[pivotPos], a[end]) || !lt(a[begin - 1], a[pivotPos]);
    var last := end - 2;
    var smallArray := last - begin + 1 <= 2 * size && last - begin > 48;
    ghost var s := a[..];
    var e, p;
    e, p, m := PartitionBlocks(a, begin, end, pivotPos, lt, size, false);
    Irreflexive(lt, p);
    pos, pivotLength, stop := e.pos, 1, e.pos;
    var boundary := pos;
    WindowStart(lt, s, Filled(a[..], pos, p), p, begin, pos, end);
    if e.left && (doublePivotCheck || (smallArray && e.count >= (15 * e.shift) / 16)) {
      var top;
      top, stop := GatherRight(a, boundary, end, p, lt, s, begin);
      pivotLength := top + 1 - boundary;
    } else if e.right && (doublePivotCheck || (smallArray && e.count >= (15 * e.shift) / 16)) {
      var low;
      low, stop := GatherLeft(a, begin, boundary, end, p, lt, s);
      pos := low;
      pivotLength := boundary + 1 - pos;
    }
    a[boundary] := p;
  }
}
