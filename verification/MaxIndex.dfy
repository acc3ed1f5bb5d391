/** The index of a maximum as sequence.h finds it: the serial search counts from index 0 wherever its
    range starts, so a block whose first cell is its best answers with cell 0. */
module MaxIndex {
  import opened Orders
  import opened Sequence
  import opened Schedules

  /** No cell of lo..hi-1 beats cell k of it; `better` compares a candidate with the best so far. */
  ghost predicate Best<T(!new)>(better: (T, T) -> bool, v: seq<T>, lo: int, hi: int, k: int) {
    0 <= lo <= k < hi <= |v| && forall j :: lo <= j < hi ==> !better(v[j], v[k])
  }

  ghost predicate FirstBest<T(!new)>(better: (T, T) -> bool, v: seq<T>, lo: int, hi: int, k: int) {
    Best(better, v, lo, hi, k) && forall j :: lo <= j < k ==> better(v[k], v[j])
  }

  /** What the serial search answers when m is the first best cell of its range. */
  function Answer(lo: int, m: int): int {
    if m == lo then 0 else m
  }

  /** The first best cell of the range is k, or the first cell of all if k is 0. */
  method MaxIndexSerial<T(!new)>(a: array<T>, s: int, e: int, better: (T, T) -> bool) returns (k: int)
    requires StrictWeak(better) && 0 <= s < e <= a.Length
    ensures k == 0 || s < k < e
    ensures FirstBest(better, a[..], s, e, if k == 0 then s else k)
  {
    var r := a[s];
    k := 0;
    ghost var m := s;
    Irreflexive(better, r);
    for j := s + 1 to e
      invariant s <= m < j && r == a[m] && k == Answer(s, m)
      invariant forall i :: s <= i < j ==> !better(a[i], r)
      invariant forall i :: s <= i < m ==> better(r, a[i])
    {
      var v := a[j];
      if better(v, r) {
        NewBest(better, a[..], s, j, m);
        r, k, m := v, j, j;
      }
    }
  }

  lemma NewBest<T(!new)>(better: (T, T) -> bool, v: seq<T>, s: int, j: int, m: int)
    requires StrictWeak(better) && 0 <= s <= m < j < |v| && better(v[j], v[m])
    requires forall i :: s <= i < j ==> !better(v[i], v[m])
    ensures forall i :: s <= i < j ==> better(v[j], v[i]) && !better(v[i], v[j])
    ensures !better(v[j], v[j])
  {
    forall i | s <= i < j
      ensures better(v[j], v[i]) && !better(v[i], v[j])
    {
      LessTrans(better, v[j], v[m], v[i]);
    }
    Irreflexive(better, v[j]);
  }

  /** The answer of block i. */
  ghost predicate Answered<T(!new)>(better: (T, T) -> bool, v: seq<T>, n: int, bsize: int, answers: seq<int>, i: int) {
    && 0 <= i < |answers|
    && exists m :: FirstBest(better, v, BlockStart(0, bsize, i), BlockEnd(0, n, bsize, i), m)
                   && answers[i] == Answer(BlockStart(0, bsize, i), m)
  }

  /** A maximum that the search can find: it lies in the first block, or the first cell of its block
      is no maximum. */
  ghost predicate Findable<T(!new)>(better: (T, T) -> bool, v: seq<T>, n: int, bsize: int, x: int)
    requires 0 < bsize
  {
    && Best(better, v, 0, n, x)
    && (BlockOf(0, bsize, x) == 0 || !Best(better, v, 0, n, BlockStart(0, bsize, BlockOf(0, bsize, x))))
  }

  /** The answers of all blocks, each found by its own thread, in any order. */
  method AnswerBlocks<T(!new)>(a: array<T>, n: int, better: (T, T) -> bool, bsize: int, order: Order) returns (answers: array<int>)
    requires StrictWeak(better) && 0 < n <= a.Length && 0 < bsize && IsOrder(order, NBlocks(n, bsize))
    ensures answers.Length == NBlocks(n, bsize)
    ensures forall i :: 0 <= i < answers.Length ==> Answered(better, a[..], n, bsize, answers[..], i)
  {
    var l := NBlocks(n, bsize);
    answers := new int[l](_ => 0);
    for t := 0 to l
      invariant forall i :: 0 <= i < l && order.place[i] < t ==> Answered(better, a[..], n, bsize, answers[..], i)
    {
      hide FirstBest;
      var i := order.at[t];
      BlockBounds(0, n, bsize, i);
      ghost var before := answers[..];
      var k := MaxIndexSerial(a, BlockStart(0, bsize, i), BlockEnd(0, n, bsize, i), better);
      assert k == Answer(BlockStart(0, bsize, i), if k == 0 then BlockStart(0, bsize, i) else k);
      answers[i] := k;
      forall j | 0 <= j < l && order.place[j] < t + 1
        ensures Answered(better, a[..], n, bsize, answers[..], j)
      {
        assert j != i ==> Answered(better, a[..], n, bsize, before, j);
      }
    }
  }

  /** With at most two blocks the answer is the first maximum; with more it is a maximum exactly if
      some maximum is findable. */
  method MaxIndex<T(!new)>(a: array<T>, n: int, better: (T, T) -> bool, bsize: int, order: Order) returns (k: int)
    requires StrictWeak(better) && 0 < n <= a.Length && 0 < bsize && IsOrder(order, NBlocks(n, bsize))
    ensures 0 <= k < n
    ensures NBlocks(n, bsize) <= 2 ==> FirstBest(better, a[..], 0, n, k)
    ensures NBlocks(n, bsize) > 2 ==> (Best(better, a[..], 0, n, k) <==> exists x :: Findable(better, a[..], n, bsize, x))
    ensures NBlocks(n, bsize) > 2 && Best(better, a[..], 0, n, k) ==>
              Findable(better, a[..], n, bsize, k) && forall x :: x < k ==> !Findable(better, a[..], n, bsize, x)
  {
    var l := NBlocks(n, bsize);
    if l <= 2 {
      k := MaxIndexSerial(a, 0, n, better);
      return;
    }
    var answers := AnswerBlocks(a, n, better, bsize, order);
    ghost var v, w := a[..], answers[..];
    AnswersInside(better, v, n, bsize, w);
    k := answers[0];
    Irreflexive(better, v[k]);
    ghost var c := 0;
    for j := 1 to l
      invariant 0 <= c < j && k == w[c] && answers[..] == w
      invariant forall i :: 0 <= i < j ==> !better(v[w[i]], v[k])
      invariant forall i :: 0 <= i < c ==> better(v[k], v[w[i]])
    {
      if better(a[answers[j]], a[k]) {
        BestAnswer(better, v, w, j, k);
        k, c := answers[j], j;
      }
    }
    if x :| Findable(better, v, n, bsize, x) {
      FoundIsBest(better, v, n, bsize, w, x, k);
    }
    if Best(better, v, 0, n, k) {
      BestIsFindable(better, v, n, bsize, w, c);
      forall x | x < k
        ensures !Findable(better, v, n, bsize, x)
      {
        NoneBefore(better, v, n, bsize, w, c, x);
      }
    }
  }

  lemma AnswersInside<T(!new)>(better: (T, T) -> bool, v: seq<T>, n: int, bsize: int, w: seq<int>)
    requires 0 < n <= |v| && 0 < bsize && |w| == NBlocks(n, bsize)
    requires forall i :: 0 <= i < |w| ==> Answered(better, v, n, bsize, w, i)
    ensures forall i :: 0 <= i < |w| ==> 0 <= w[i] < n
  {
    forall i | 0 <= i < |w|
      ensures 0 <= w[i] < n
    {
      BlockBounds(0, n, bsize, i);
      assert Answered(better, v, n, bsize, w, i);
    }
  }

  lemma BestAnswer<T(!new)>(better: (T, T) -> bool, v: seq<T>, w: seq<int>, j: int, k: int)
    requires StrictWeak(better) && 0 <= j < |w| && (forall i :: 0 <= i <= j ==> 0 <= w[i] < |v|) && 0 <= k < |v|
    requires better(v[w[j]], v[k]) && forall i :: 0 <= i < j ==> !better(v[w[i]], v[k])
    ensures forall i :: 0 <= i <= j ==> !better(v[w[i]], v[w[j]]) && (i < j ==> better(v[w[j]], v[w[i]]))
  {
    forall i | 0 <= i <= j
      ensures !better(v[w[i]], v[w[j]]) && (i < j ==> better(v[w[j]], v[w[i]]))
    {
      if i < j {
        LessTrans(better, v[w[j]], v[k], v[w[i]]);
      } else {
        Irreflexive(better, v[w[j]]);
      }
    }
  }

  lemma FirstIsFirst<T(!new)>(better: (T, T) -> bool, v: seq<T>, lo: int, hi: int, m: int, x: int)
    requires 0 <= lo <= m < hi <= |v| && FirstBest(better, v, lo, hi, m)
    requires lo <= x < hi && !better(v[m], v[x])
    ensures m <= x
  {
  }

  /** A findable maximum makes its block answer with a maximum that is no later. */
  lemma FoundAnswer<T(!new)>(better: (T, T) -> bool, v: seq<T>, n: int, bsize: int, w: seq<int>, x: int)
    returns (b: int)
    requires StrictWeak(better) && 0 < n <= |v| && 0 < bsize && |w| == NBlocks(n, bsize)
    requires forall i :: 0 <= i < |w| ==> Answered(better, v, n, bsize, w, i)
    requires Findable(better, v, n, bsize, x)
    ensures 0 <= b < |w| && BlockStart(0, bsize, b) <= w[b] <= x < BlockEnd(0, n, bsize, b) && w[b] < n
    ensures !better(v[x], v[w[b]])
  {
    b := BlockOf(0, bsize, x);
    InBlock(0, n, bsize, x);
    hide BlockOf, BlockEnd, NBlocks;
    var lo, hi := BlockStart(0, bsize, b), BlockEnd(0, n, bsize, b);
    BlockBounds(0, n, bsize, b);
    assert Answered(better, v, n, bsize, w, b);
    var m :| FirstBest(better, v, lo, hi, m) && w[b] == Answer(lo, m);
    if 0 < b && m == lo {
      StartIsBest(better, v, n, lo, x);
    }
    FirstStart(0, bsize);
    assert w[b] == m && !better(v[x], v[m]);
    FirstIsFirst(better, v, lo, hi, m, x);
  }

  /** Then the whole search answers with a maximum. */
  lemma FoundIsBest<T(!new)>(better: (T, T) -> bool, v: seq<T>, n: int, bsize: int, w: seq<int>, x: int, k: int)
    requires StrictWeak(better) && 0 < n <= |v| && 0 < bsize && |w| == NBlocks(n, bsize)
    requires forall i :: 0 <= i < |w| ==> Answered(better, v, n, bsize, w, i)
    requires Findable(better, v, n, bsize, x) && 0 <= k < n
    requires forall i :: 0 <= i < |w| ==> 0 <= w[i] < n && !better(v[w[i]], v[k])
    ensures Best(better, v, 0, n, k)
  {
    var b := FoundAnswer(better, v, n, bsize, w, x);
    forall j | 0 <= j < n
      ensures !better(v[j], v[k])
    {
      NotLessTrans(better, v[j], v[x], v[w[b]]);
      NotLessTrans(better, v[j], v[w[b]], v[k]);
    }
  }

  lemma StartIsBest<T(!new)>(better: (T, T) -> bool, v: seq<T>, n: int, lo: int, x: int)
    requires StrictWeak(better) && Best(better, v, 0, n, x) && 0 <= lo < n && !better(v[x], v[lo])
    ensures Best(better, v, 0, n, lo)
  {
    forall j | 0 <= j < n
      ensures !better(v[j], v[lo])
    {
      NotLessTrans(better, v[j], v[x], v[lo]);
    }
  }

  /** A maximum that the search answers with is findable. */
  lemma BestIsFindable<T(!new)>(better: (T, T) -> bool, v: seq<T>, n: int, bsize: int, w: seq<int>, c: int)
    requires StrictWeak(better) && 0 < n <= |v| && 0 < bsize && |w| == NBlocks(n, bsize) && 0 <= c < |w|
    requires Answered(better, v, n, bsize, w, c) && Best(better, v, 0, n, w[c])
    ensures Findable(better, v, n, bsize, w[c])
  {
    hide BlockOf, BlockEnd, NBlocks;
    var lo, hi := BlockStart(0, bsize, c), BlockEnd(0, n, bsize, c);
    var m :| FirstBest(better, v, lo, hi, m) && w[c] == Answer(lo, m);
    BlockBounds(0, n, bsize, c);
    BlockBounds(0, n, bsize, 0);
    FirstStart(0, bsize);
    if m == lo {
      BlockOfCell(0, n, bsize, 0, 0);
    } else {
      BlockOfCell(0, n, bsize, c, m);
      assert better(v[m], v[lo]);
      assert !Best(better, v, 0, n, lo);
    }
  }

  /** Block c's answer is the first findable maximum if no earlier block has so good an answer. */
  lemma NoneBefore<T(!new)>(better: (T, T) -> bool, v: seq<T>, n: int, bsize: int, w: seq<int>, c: int, x: int)
    requires StrictWeak(better) && 0 < n <= |v| && 0 < bsize && |w| == NBlocks(n, bsize) && 0 <= c < |w|
    requires forall i :: 0 <= i < |w| ==> Answered(better, v, n, bsize, w, i) && 0 <= w[i] < n
    requires Best(better, v, 0, n, w[c]) && (forall i :: 0 <= i < c ==> better(v[w[c]], v[w[i]])) && x < w[c]
    ensures !Findable(better, v, n, bsize, x)
  {
    if Findable(better, v, n, bsize, x) {
      var b := FoundAnswer(better, v, n, bsize, w, x);
      NotLessTrans(better, v[w[c]], v[x], v[w[b]]);
      assert c <= b;
      AnswerInBlock(better, v, n, bsize, w, c);
      if c < b {
        BlocksApart(0, n, bsize, c, b);
      }
    }
  }

  lemma AnswerInBlock<T(!new)>(better: (T, T) -> bool, v: seq<T>, n: int, bsize: int, w: seq<int>, c: int)
    requires 0 < n <= |v| && 0 < bsize && |w| == NBlocks(n, bsize) && 0 <= c < |w| && Answered(better, v, n, bsize, w, c)
    ensures w[c] < BlockEnd(0, n, bsize, c)
  {
    BlockBounds(0, n, bsize, c);
  }

  function Greater(): (int, int) -> bool {
    (x, y) => x > y
  }

  function OneAt(n: nat, k: int): (v: seq<int>)
    ensures |v| == n
  {
    seq(n, i => if i == k then 1 else 0)
  }

  /** So it can miss: three blocks, the only maximum at the start of the second. */
  lemma MaximumMissed(bsize: int, n: int)
    requires 1 < bsize && n == 2 * bsize + 1
    ensures StrictWeak(Greater()) && NBlocks(n, bsize) > 2 && Best(Greater(), OneAt(n, bsize), 0, n, bsize)
    ensures forall x :: !Findable(Greater(), OneAt(n, bsize), n, bsize, x)
  {
    var v := OneAt(n, bsize);
    assert 2 * bsize / bsize == 2;
    BlockBounds(0, n, bsize, 1);
    forall x
      ensures !Findable(Greater(), v, n, bsize, x)
    {
      if Best(Greater(), v, 0, n, x) {
        assert !Greater()(v[bsize], v[x]);
        BlockOfCell(0, n, bsize, 1, x);
      }
    }
  }
}
