/** The imperative form of mcstl_partition.h: the shared variables and the array as mutable state,
    each thread step as a method that meets its specification in ChunkRound, and the complete
    partition under an arbitrary scheduler. */
module ChunkMachine {
  import opened ChunkRound
  import opened ChunkPartition
  import ChunkProof
  import ChunkSide

  class Machine<T(==)> {
    const c: Round<T>
    const cells: array<T>
    var left: int
    var right: int
    var leftoverLeft: int
    var leftoverRight: int
    var leftnew: int
    var rightnew: int
    var singleDone: bool
    var reservedLeft: seq<bool>
    var reservedRight: seq<bool>
    var threads: seq<Thread>

    ghost function View(): State<T>
      reads this, cells
    {
      State(cells[..], left, right, leftoverLeft, leftoverRight, leftnew, rightnew, singleDone,
            reservedLeft, reservedRight, threads)
    }

    constructor (c: Round<T>, cells: array<T>, tables: nat)
      requires 1 <= c.threads
      ensures this.c == c && this.cells == cells
      ensures View() == Begun(c, cells[..], tables)
    {
      this.c := c;
      this.cells := cells;
      left, right := c.first, c.last;
      leftoverLeft, leftoverRight := 0, 0;
      leftnew, rightnew := 0, 0;
      singleDone := false;
      reservedLeft := seq(tables, _ => false);
      reservedRight := seq(tables, _ => false);
      threads := seq(c.threads, _ => FreshThread(c.n));
    }

    method Swap(i: int, j: int)
      requires 0 <= i < cells.Length && 0 <= j < cells.Length
      modifies cells
      ensures cells[..] == Swapped(old(cells[..]), i, j)
    {
      cells[i], cells[j] := cells[j], cells[i];
    }

    method FetchLeftMove(t: int)
      requires 0 <= t < |threads|
      modifies this`left, this`threads
      ensures View() == FetchLeftStep(c, old(View()), t)
    {
      var th := threads[t];
      if th.tl > th.tlb {
        if left + (c.chunk - 1) <= right {
          th := th.(tl := left, tlb := left + (c.chunk - 1));
          left := left + c.chunk;
        } else {
          th := th.(finished := true);
        }
      }
      threads := threads[t := th.(pc := FetchRight)];
    }

    method FetchRightMove(t: int)
      requires 0 <= t < |threads|
      modifies this`right, this`threads
      ensures View() == FetchRightStep(c, old(View()), t)
    {
      var th := threads[t];
      if th.tr < th.trb {
        if left <= right - (c.chunk - 1) {
          th := th.(tr := right, trb := right - (c.chunk - 1));
          right := right - c.chunk;
        } else {
          th := th.(finished := true);
        }
      }
      threads := threads[t := th.(pc := Test)];
    }

    method ScanMove(t: int)
      requires StepSafe(c, View(), t) && (threads[t].pc.ScanLeft? || threads[t].pc.ScanRight?)
      modifies this`threads
      ensures View() == EarlyStep(c, old(View()), t)
    {
      var th := threads[t];
      if th.pc.ScanLeft? {
        if c.pred(cells[th.tl]) && th.tl <= th.tlb {
          threads := threads[t := th.(tl := th.tl + 1)];
        } else {
          threads := threads[t := th.(pc := ScanRight)];
        }
      } else {
        if !c.pred(cells[th.tr]) && th.tr >= th.trb {
          threads := threads[t := th.(tr := th.tr - 1)];
        } else {
          threads := threads[t := th.(pc := Exchange)];
        }
      }
    }

    method ExchangeMove(t: int)
      requires 0 <= t < |threads| && ExchangeSafe(View(), threads[t])
      modifies cells, this`threads
      ensures View() == ExchangeStep(c, old(View()), t)
    {
      var th := threads[t];
      if th.tl > th.tlb || th.tr < th.trb {
        threads := threads[t := th.(pc := FetchLeft)];
      } else {
        Swap(th.tl, th.tr);
        th := th.(tl := th.tl + 1, tr := th.tr - 1);
        threads := threads[t := th.(pc := LoopOrFetch(th.tl, th.tr))];
      }
    }

    method EarlyMove(t: int)
      requires StepSafe(c, View(), t) && Rank(threads[t].pc) < 3
      modifies this, cells
      ensures View() == EarlyStep(c, old(View()), t)
    {
      var th := threads[t];
      if th.pc.Start? {
        threads := threads[t := th.(pc := FetchLeft, tl := left + 1, tlb := left, tr := c.n - 1, trb := c.n)];
      } else if th.pc.FetchLeft? {
        FetchLeftMove(t);
      } else if th.pc.FetchRight? {
        FetchRightMove(t);
      } else if th.pc.Test? {
        threads := threads[t := th.(pc := if th.finished then CountLeft else LoopOrFetch(th.tl, th.tr))];
      } else if th.pc.Exchange? {
        ExchangeMove(t);
      } else if th.pc.CountLeft? {
        if th.tl <= th.tlb {
          leftoverLeft := leftoverLeft + 1;
        }
        threads := threads[t := th.(pc := CountRight)];
      } else if th.pc.CountRight? {
        if th.tr >= th.trb {
          leftoverRight := leftoverRight + 1;
        }
        threads := threads[t := th.(pc := Barrier1)];
      } else {
        ScanMove(t);
      }
    }

    method ReserveMove(t: int)
      requires 0 <= t < |threads| && ReserveSafe(c, View(), threads[t])
      modifies this`reservedLeft, this`reservedRight, this`threads
      ensures View() == ReserveStep(c, old(View()), t)
    {
      var th := threads[t];
      var spot := -1;
      if th.tr >= th.trb && th.trb <= rightnew {
        spot := ((th.trb - 1) - right) / c.chunk;
        reservedRight := reservedRight[spot := true];
      }
      if th.tl <= th.tlb && th.tlb >= leftnew {
        spot := (left - (th.tlb + 1)) / c.chunk;
        reservedLeft := reservedLeft[spot := true];
      }
      threads := threads[t := th.(pc := Barrier3, spot := spot)];
    }

    method MiddleMove(t: int)
      requires StepSafe(c, View(), t) && 3 <= Rank(threads[t].pc) < 8
      modifies this
      ensures View() == MiddleStep(c, old(View()), t)
    {
      var th := threads[t];
      if th.pc.Barrier1? {
        threads := threads[t := th.(pc := Single)];
      } else if th.pc.Single? {
        if !singleDone {
          leftnew := left - leftoverLeft * c.chunk;
          rightnew := right + leftoverRight * c.chunk;
          singleDone := true;
        }
        threads := threads[t := th.(pc := Barrier2)];
      } else if th.pc.Barrier2? {
        threads := threads[t := th.(pc := Reserve)];
      } else if th.pc.Reserve? {
        ReserveMove(t);
      } else {
        threads := threads[t := th.(pc := FindLeft)];
      }
    }

    /** The loop over the reservation table: the first free spot, or -1. */
    static method Search(reserved: seq<bool>, total: int) returns (r: int)
      requires 0 <= total <= |reserved|
      ensures r == FirstFree(reserved, total)
    {
      r := 0;
      while r < total && reserved[r]
        invariant 0 <= r <= total
        invariant FirstFreeFrom(reserved, total, r) == FirstFree(reserved, total)
      {
        r := r + 1;
      }
      if r == total {
        r := -1;
      }
    }

    method FindMove(t: int)
      requires StepSafe(c, View(), t) && (threads[t].pc.FindLeft? || threads[t].pc.FindRight?)
      modifies this`reservedLeft, this`reservedRight, this`threads
      ensures View() == MovingStep(c, old(View()), t)
    {
      var th := threads[t];
      if th.pc.FindLeft? {
        if th.tl <= th.tlb && th.tlb < leftnew {
          var r := Search(reservedLeft, leftoverLeft);
          reservedLeft := reservedLeft[r := true];
          threads := threads[t := th.(pc := SwapLeft, spot := r, swapstart := left - (r + 1) * c.chunk)];
        } else {
          threads := threads[t := th.(pc := FindRight)];
        }
      } else {
        if th.tr >= th.trb && th.trb > rightnew {
          var r := Search(reservedRight, leftoverRight);
          reservedRight := reservedRight[r := true];
          threads := threads[t := th.(pc := SwapRight, spot := r, swapstart := right + r * c.chunk + 1)];
        } else {
          threads := threads[t := th.(pc := Barrier4)];
        }
      }
    }

    method SwapMove(t: int)
      requires StepSafe(c, View(), t) && (threads[t].pc.SwapLeft? || threads[t].pc.SwapRight?)
      modifies cells, this`threads
      ensures View() == MovingStep(c, old(View()), t)
    {
      var th := threads[t];
      if th.k < c.chunk {
        if th.pc.SwapLeft? {
          Swap(th.tlb - (c.chunk - 1) + th.k, th.swapstart + th.k);
        } else {
          Swap(th.trb + th.k, th.swapstart + th.k);
        }
        threads := threads[t := th.(k := th.k + 1)];
      } else {
        threads := threads[t := th.(pc := if th.pc.SwapLeft? then FindRight else Barrier4)];
      }
    }

    method MovingMove(t: int)
      requires StepSafe(c, View(), t) && 8 <= Rank(threads[t].pc) < 14
      modifies this, cells
      ensures View() == MovingStep(c, old(View()), t)
    {
      var th := threads[t];
      if th.pc.FindLeft? || th.pc.FindRight? {
        FindMove(t);
      } else if th.pc.SwapLeft? || th.pc.SwapRight? {
        SwapMove(t);
      } else if th.pc.Barrier4? {
        threads := threads[t := th.(pc := Publish)];
      } else {
        left, right := leftnew, rightnew;
        threads := threads[t := th.(pc := Done)];
      }
    }

    /** One step of thread t, in place. */
    method Move(t: int)
      requires StepSafe(c, View(), t) && Rank(threads[t].pc) < 14
      modifies this, cells
      ensures View() == Step(c, old(View()), t)
    {
      if Rank(threads[t].pc) < 3 {
        EarlyMove(t);
      } else if Rank(threads[t].pc) < 8 {
        MiddleMove(t);
      } else {
        MovingMove(t);
      }
    }

    /** A whole round: the scheduler picks any thread that can move, until all are done. */
    method RunRound()
      requires Inv(c, View())
      modifies this, cells
      ensures AllDone(View()) && Inv(c, View())
    {
      hide Inv, Step, Work;
      while exists t :: 0 <= t < |threads| && CanMove(t)
        invariant Inv(c, View())
        decreases Work(c, View())
      {
        var t :| 0 <= t < |threads| && CanMove(t);
        WorkNatural(c, View());
        StepWorks(c, View(), t);
        StepKeeps(c, View(), t);
        Move(t);
      }
      forall t
        ensures !Enabled(View(), t)
      {
        assert 0 <= t < |threads| ==> !CanMove(t);
      }
      QuietIsDone(View());
    }

    predicate CanMove(t: int)
      requires 0 <= t < |threads|
      reads this
    {
      var pc := threads[t].pc;
      && !pc.Done?
      && (pc.Barrier1? || pc.Barrier2? || pc.Barrier3? || pc.Barrier4? ==>
            forall u :: 0 <= u < |threads| ==> Rank(threads[u].pc) >= Rank(pc))
    }
  }

  method Exchange<T(==)>(a: array<T>, i: int, j: int)
    requires 0 <= i < a.Length && 0 <= j < a.Length
    modifies a
    ensures a[i] == old(a[j]) && a[j] == old(a[i])
    ensures forall k :: 0 <= k < a.Length && k != i && k != j ==> a[k] == old(a[k])
    ensures multiset(a[..]) == multiset(old(a[..]))
  {
    a[i], a[j] := a[j], a[i];
  }

  /** Goes right past cells that satisfy the predicate, at most up to r. */
  method ScanUp<T(==)>(a: array<T>, pred: T -> bool, l: int, r: int) returns (k: int)
    requires 0 <= l <= r < a.Length
    ensures l <= k <= r && (k < r ==> !pred(a[k]))
    ensures forall i :: l <= i < k ==> pred(a[i])
  {
    k := l;
    while pred(a[k]) && k < r
      invariant l <= k <= r
      invariant forall i :: l <= i < k ==> pred(a[i])
    {
      k := k + 1;
    }
  }

  /** Goes left past cells that fail the predicate, at most down to l. */
  method ScanDown<T(==)>(a: array<T>, pred: T -> bool, l: int, r: int) returns (k: int)
    requires 0 <= l <= r < a.Length
    ensures l <= k <= r && (l < k ==> pred(a[k]))
    ensures forall i :: k < i <= r ==> !pred(a[i])
  {
    k := r;
    while !pred(a[k]) && l < k
      invariant l <= k <= r
      invariant forall i :: k < i <= r ==> !pred(a[i])
    {
      k := k - 1;
    }
  }

  /** The sequential pass over the cells that are still unknown, and the returned index. */
  method FinalPass<T(==)>(a: array<T>, pred: T -> bool, left: int, right: int) returns (split: int)
    requires 0 <= left <= right + 1 <= a.Length
    requires forall i :: 0 <= i < left ==> pred(a[i])
    requires forall i :: right < i < a.Length ==> !pred(a[i])
    modifies a
    ensures multiset(a[..]) == multiset(old(a[..]))
    ensures left < a.Length ==> IsSplit(a[..], pred, split)
    ensures left == a.Length ==> split == a.Length + 1
  {
    var l, r := left, right;
    while l < r
      invariant left <= l <= r + 1 <= a.Length
      invariant r <= right && (l == left || l <= right)
      invariant multiset(a[..]) == multiset(old(a[..]))
      invariant forall i :: 0 <= i < l ==> pred(a[i])
      invariant forall i :: r < i < a.Length ==> !pred(a[i])
      decreases r - l
    {
      l := ScanUp(a, pred, l, r);
      r := ScanDown(a, pred, l, r);
      if l == r {
        break;
      }
      Exchange(a, l, r);
      l, r := l + 1, r - 1;
    }
    if l < a.Length && !pred(a[l]) {
      split := l;
    } else {
      split := l + 1;
    }
  }

  /** Exactly the cells before `split` satisfy the predicate. */
  predicate IsSplit<T>(a: seq<T>, pred: T -> bool, split: int) {
    && 0 <= split <= |a|
    && (forall i :: 0 <= i < split ==> pred(a[i]))
    && (forall i :: split <= i < |a| ==> !pred(a[i]))
  }

  /** Whenever a round is started there are two chunks for each of the maximal number of threads. */
  lemma AllThreadsUsed(width: int, maxThreads: nat, chunkSize: nat)
    requires 1 <= maxThreads && 1 <= chunkSize && width >= 2 * (maxThreads * chunkSize)
    ensures (width / chunkSize) / 2 >= maxThreads
  {
    var q := width / chunkSize;
    var k := 2 * maxThreads - q - 1;
    assert width < (q + 1) * chunkSize;
    assert 2 * (maxThreads * chunkSize) == (q + 1) * chunkSize + k * chunkSize;
    assert k >= 0 ==> k * chunkSize >= 0;
  }

  /** One parallel round, under an arbitrary scheduler. */
  method OneRound<T(==)>(a: array<T>, pred: T -> bool, tables: nat, threads: nat, chunkSize: nat, first: int, last: int)
    returns (left: int, right: int)
    requires RoundReady(Round(pred, chunkSize, threads, first, last, a.Length, multiset(a[..])), a[..])
    requires threads <= tables
    modifies a
    ensures multiset(a[..]) == multiset(old(a[..]))
    ensures first <= left <= right + 1 && right <= last && left < a.Length
    ensures right - left + 1 < (threads + 1) * chunkSize
    ensures forall i :: 0 <= i < left ==> pred(a[i])
    ensures forall i :: right < i < a.Length ==> !pred(a[i])
  {
    var c := Round(pred, chunkSize, threads, first, last, a.Length, multiset(a[..]));
    BegunInv(c, a[..], tables);
    var m := new Machine(c, a, tables);
    m.RunRound();
    assert m.threads[0].pc == Done;
    left, right := m.left, m.right;
    assert ChunkRound.Settled(c, m.View(), left, right);
    assert m.View().a == a[..];
    forall i | 0 <= i < left
      ensures pred(a[i])
    {
      assert m.View().a[i] == a[i];
    }
    forall i | right < i < a.Length
      ensures !pred(a[i])
    {
      assert m.View().a[i] == a[i];
    }
  }

  /** What a round of all threads leaves is too little for another. */
  lemma RoundIsLast(width: int, maxThreads: nat, chunkSize: nat)
    requires 1 <= maxThreads && 1 <= chunkSize && width < (maxThreads + 1) * chunkSize
    ensures width < 2 * (maxThreads * chunkSize)
  {
    assert (maxThreads + 1) * chunkSize == maxThreads * chunkSize + chunkSize;
    ChunkSide.MulAtLeast(maxThreads, chunkSize);
  }

  /** parallel_partition: for every scheduler, the array becomes a permutation of itself; arrays of at
      least two chunks a thread take one parallel round, all others none; and the returned index is the
      split point exactly when the array is not empty (an empty array yields 1). */
  method ParallelPartition<T(==)>(a: array<T>, pred: T -> bool, maxThreads: nat, chunkSize: nat)
    returns (split: int, rounds: nat)
    requires 1 <= maxThreads && 1 <= chunkSize
    modifies a
    ensures multiset(a[..]) == multiset(old(a[..]))
    ensures a.Length >= 1 <==> IsSplit(a[..], pred, split)
    ensures a.Length == 0 ==> split == 1
    ensures rounds == if a.Length >= 2 * (maxThreads * chunkSize) then 1 else 0
  {
    var n := a.Length;
    var left, right := 0, n - 1;
    rounds := 0;
    while right - left + 1 >= 2 * (maxThreads * chunkSize)
      invariant 0 <= left <= right + 1 <= n == a.Length
      invariant n >= 1 ==> left < n
      invariant multiset(a[..]) == multiset(old(a[..]))
      invariant forall i :: 0 <= i < left ==> pred(a[i])
      invariant forall i :: right < i < n ==> !pred(a[i])
      invariant rounds <= 1 && (rounds == 0 ==> left == 0 && right == n - 1)
      invariant rounds == 1 ==> n >= 2 * (maxThreads * chunkSize)
      invariant rounds == 1 ==> right - left + 1 < 2 * (maxThreads * chunkSize)
      decreases 1 - rounds
    {
      var numChunks := (right - left + 1) / chunkSize;
      var numThreads := if numChunks / 2 < maxThreads then numChunks / 2 else maxThreads;
      AllThreadsUsed(right - left + 1, maxThreads, chunkSize);
      left, right := OneRound(a, pred, maxThreads, numThreads, chunkSize, left, right);
      rounds := rounds + 1;
      RoundIsLast(right - left + 1, maxThreads, chunkSize);
    }
    split := FinalPass(a, pred, left, right);
  }
}
