/** mcstl_partition.h as a whole: every interleaving of a round, its termination, and the complete
    partition with its final sequential pass. */
module ChunkPartition {
  import opened ChunkSide
  import opened ChunkRound
  import opened ChunkProof

  // ----- every step, every run -----

  lemma EarlyStepKeeps<T>(c: Round<T>, s: State<T>, t: int)
    requires Running(c, s) && !SomeDone(s) && Enabled(s, t) && Rank(s.threads[t].pc) < 3
    ensures StepSafe(c, s, t) && Inv(c, EarlyStep(c, s, t))
  {
    hide Running, Published;
    var pc := s.threads[t].pc;
    if pc.Start? { StartKeeps(c, s, t); }
    else if pc.FetchLeft? { FetchLeftKeeps(c, s, t); }
    else if pc.FetchRight? { FetchRightKeeps(c, s, t); }
    else if pc.Test? { TestKeeps(c, s, t); }
    else if pc.ScanLeft? { ScanLeftKeeps(c, s, t); }
    else if pc.ScanRight? { ScanRightKeeps(c, s, t); }
    else if pc.Exchange? { ExchangeKeeps(c, s, t); }
    else if pc.CountLeft? { CountLeftKeeps(c, s, t); }
    else { CountRightKeeps(c, s, t); }
  }

  lemma MiddleStepKeeps<T>(c: Round<T>, s: State<T>, t: int)
    requires Running(c, s) && !SomeDone(s) && Enabled(s, t) && 3 <= Rank(s.threads[t].pc) < 8
    ensures StepSafe(c, s, t) && Inv(c, MiddleStep(c, s, t))
  {
    hide Running, Published;
    var pc := s.threads[t].pc;
    if pc.Barrier1? { BarrierKeeps(c, s, t, Single); }
    else if pc.Single? { SingleKeeps(c, s, t); }
    else if pc.Barrier2? { BarrierKeeps(c, s, t, Reserve); }
    else if pc.Reserve? { ReserveStepKeeps(c, s, t); }
    else { BarrierKeeps(c, s, t, FindLeft); }
  }

  lemma MovingStepKeeps<T>(c: Round<T>, s: State<T>, t: int)
    requires Running(c, s) && !SomeDone(s) && Enabled(s, t) && 8 <= Rank(s.threads[t].pc)
    ensures StepSafe(c, s, t) && Inv(c, MovingStep(c, s, t))
  {
    hide Running, Published;
    var pc := s.threads[t].pc;
    if pc.FindLeft? { FindLeftKeeps(c, s, t); }
    else if pc.SwapLeft? { SwapLeftKeeps(c, s, t); }
    else if pc.FindRight? { FindRightKeeps(c, s, t); }
    else if pc.SwapRight? { SwapRightKeeps(c, s, t); }
    else if pc.Barrier4? { BarrierKeeps(c, s, t, Publish); }
    else { PublishKeeps(c, s, t); }
  }

  /** Main step theorem: an enabled step touches only existing cells and keeps the invariant. */
  lemma StepKeeps<T>(c: Round<T>, s: State<T>, t: int)
    requires Inv(c, s) && Enabled(s, t)
    ensures StepSafe(c, s, t) && Inv(c, Step(c, s, t))
  {
    assert SomeDone(s) ==> Rank(s.threads[t].pc) >= 12;
    hide Running, Published;
    if SomeDone(s) {
      if s.threads[t].pc.Publish? {
        PublishKeeps(c, s, t);
      } else {
        PublishedKeeps(c, s, t);
      }
    } else if Rank(s.threads[t].pc) < 3 {
      EarlyStepKeeps(c, s, t);
    } else if Rank(s.threads[t].pc) < 8 {
      MiddleStepKeeps(c, s, t);
    } else {
      MovingStepKeeps(c, s, t);
    }
  }

  /** The run that a schedule (a sequence of thread numbers) determines; a thread that cannot move
      when its turn comes loses the turn. */
  ghost function Run<T>(c: Round<T>, s: State<T>, schedule: seq<int>): (r: State<T>)
    requires Inv(c, s)
    ensures Inv(c, r)
    decreases |schedule|
  {
    if schedule == [] then s
    else if Enabled(s, schedule[0]) then
      StepKeeps(c, s, schedule[0]);
      Run(c, Step(c, s, schedule[0]), schedule[1..])
    else Run(c, s, schedule[1..])
  }

  predicate AllDone<T>(s: State<T>) {
    forall t :: 0 <= t < |s.threads| ==> s.threads[t].pc == Done
  }

  function FreshThread(n: int): Thread {
    Thread(Start, 0, -1, n - 1, n, false, -1, 0, 0)
  }

  /** The state in which the threads of a round start. */
  function Begun<T>(c: Round<T>, a: seq<T>, tables: nat): State<T> {
    State(a, c.first, c.last, 0, 0, 0, 0, false,
          seq(tables, _ => false), seq(tables, _ => false), seq(if c.threads >= 0 then c.threads else 0, _ => FreshThread(c.n)))
  }

  /** What the sequential code guarantees when it starts a round. */
  predicate RoundReady<T>(c: Round<T>, a: seq<T>) {
    && 1 <= c.chunk && 1 <= c.threads
    && 0 <= c.first && c.last < c.n == |a| && multiset(a) == c.bag
    && 2 * (c.threads * c.chunk) <= c.last - c.first + 1
    && (forall i :: 0 <= i < c.first ==> c.pred(a[i]))
    && (forall i :: c.last < i < |a| ==> !c.pred(a[i]))
  }

  lemma BegunSide<T>(c: Round<T>, a: seq<T>, tables: nat, d: End)
    requires RoundReady(c, a) && c.threads <= tables
    ensures SideOk(c, Begun(c, a, tables), d)
    ensures Counted(Begun(c, a, tables), d) == {}
  {
    var s := Begun(c, a, tables);
    var v := SideOf(c, s, d);
    MulAtLeast(c.threads, c.chunk);
    forall t
      ensures !HeldAt(v, t)
    {
      if 0 <= t < |v.lanes| {
        assert v.lanes[t] == LaneOf(c, FreshThread(c.n), d);
      }
    }
    assert HeldSet(v) == {};
  }

  lemma BegunInv<T>(c: Round<T>, a: seq<T>, tables: nat)
    requires RoundReady(c, a) && c.threads <= tables
    ensures Inv(c, Begun(c, a, tables))
  {
    var s := Begun(c, a, tables);
    BegunSide(c, a, tables, Low);
    BegunSide(c, a, tables, High);
    MulAtLeast(c.threads, c.chunk);
    assert Waiting(s) == {} by {
      assert forall t :: !AtFetchRight(s, t);
    }
    assert Running(c, s);
  }

  /** In every interleaving, while no thread has left the round: chunks held by different threads
      are disjoint, each thread that has left the loop holds at most one leftover chunk and then
      fewer than chunk cells are unfetched, and every cell below left fails the predicate only
      inside a held chunk or a reserved spot being filled (and symmetrically above right); and the
      ranges that threads exchange concurrently are all disjoint. */
  lemma EveryInterleaving<T>(c: Round<T>, a: seq<T>, tables: nat, schedule: seq<int>)
    requires RoundReady(c, a) && c.threads <= tables
    ensures Inv(c, Begun(c, a, tables))
    ensures var s := Run(c, Begun(c, a, tables), schedule);
            && multiset(s.a) == multiset(a)
            && (SomeDone(s) || (ChunksDisjoint(c, s) && OneLeftover(c, s) && BadCellsOwned(c, s) && SwapsDisjoint(c, s)))
            && (AllDone(s) ==> ChunkRound.Settled(c, s, s.left, s.right))
  {
    BegunInv(c, a, tables);
    var s := Run(c, Begun(c, a, tables), schedule);
    if !SomeDone(s) {
      RunningMeans(c, s);
      assert s.threads[0].pc != Done;
    }
  }

  predicate LeftChunk<T>(c: Round<T>, th: Thread, i: int) {
    HoldsLeft(th) && th.tlb - c.chunk < i <= th.tlb
  }

  predicate RightChunk<T>(c: Round<T>, th: Thread, i: int) {
    HoldsRight(th) && th.trb <= i < th.trb + c.chunk
  }

  ghost predicate ChunksDisjoint<T>(c: Round<T>, s: State<T>) {
    forall t, u, i :: 0 <= t < |s.threads| && 0 <= u < |s.threads| ==>
      && !(LeftChunk(c, s.threads[t], i) && RightChunk(c, s.threads[u], i))
      && (t != u ==> !(LeftChunk(c, s.threads[t], i) && LeftChunk(c, s.threads[u], i)))
      && (t != u ==> !(RightChunk(c, s.threads[t], i) && RightChunk(c, s.threads[u], i)))
  }

  predicate OneLeftover<T>(c: Round<T>, s: State<T>) {
    forall t :: 0 <= t < |s.threads| && Rank(s.threads[t].pc) > 0 ==>
      !(HoldsLeft(s.threads[t]) && HoldsRight(s.threads[t])) && s.right - s.left + 1 < c.chunk
  }

  /** A misplaced cell below left lies in some thread's left chunk, or in the spot reserved by a
      thread that is moving its chunk; likewise above right. */
  ghost predicate BadCellsOwned<T>(c: Round<T>, s: State<T>) {
    && (forall i :: 0 <= i < s.left && i < |s.a| && !c.pred(s.a[i]) ==>
          exists t :: 0 <= t < |s.threads| && OwnsBadLeft(c, s.threads[t], i))
    && (forall i :: s.right < i < |s.a| && i >= 0 && c.pred(s.a[i]) ==>
          exists t :: 0 <= t < |s.threads| && OwnsBadRight(c, s.threads[t], i))
  }

  predicate OwnsBadLeft<T>(c: Round<T>, th: Thread, i: int) {
    || (LeftChunk(c, th, i) && th.tl <= i && i >= th.tlb - c.chunk + 1 + th.k)
    || (HoldsLeft(th) && th.swapstart <= i < th.swapstart + th.k)
  }

  predicate OwnsBadRight<T>(c: Round<T>, th: Thread, i: int) {
    || (RightChunk(c, th, i) && i <= th.tr && i >= th.trb + th.k)
    || (HoldsRight(th) && th.swapstart <= i < th.swapstart + th.k)
  }

  lemma DisjointPair<T>(c: Round<T>, s: State<T>, t: int, u: int, i: int)
    requires SideOk(c, s, Low) && SideOk(c, s, High) && s.left <= s.right + 1
    requires 0 <= t < |s.threads| && 0 <= u < |s.threads|
    ensures !(LeftChunk(c, s.threads[t], i) && RightChunk(c, s.threads[u], i))
    ensures t != u ==> !(LeftChunk(c, s.threads[t], i) && LeftChunk(c, s.threads[u], i))
    ensures t != u ==> !(RightChunk(c, s.threads[t], i) && RightChunk(c, s.threads[u], i))
  {
    ChunkFacts(c, s, t);
    ChunkFacts(c, s, u);
    var v, w := SideOf(c, s, Low), SideOf(c, s, High);
    if t != u && HoldsLeft(s.threads[t]) && HoldsLeft(s.threads[u]) {
      assert HeldAt(v, t) && HeldAt(v, u);
      assert Apart(v, t, u);
    }
    if t != u && HoldsRight(s.threads[t]) && HoldsRight(s.threads[u]) {
      assert HeldAt(w, t) && HeldAt(w, u);
      assert Apart(w, t, u);
    }
  }

  lemma RunningMeans<T>(c: Round<T>, s: State<T>)
    requires Running(c, s)
    ensures ChunksDisjoint(c, s) && OneLeftover(c, s) && BadCellsOwned(c, s) && SwapsDisjoint(c, s)
  {
    forall t, u, i | 0 <= t < |s.threads| && 0 <= u < |s.threads|
      ensures !(LeftChunk(c, s.threads[t], i) && RightChunk(c, s.threads[u], i))
      ensures t != u ==> !(LeftChunk(c, s.threads[t], i) && LeftChunk(c, s.threads[u], i))
      ensures t != u ==> !(RightChunk(c, s.threads[t], i) && RightChunk(c, s.threads[u], i))
    {
      DisjointPair(c, s, t, u, i);
    }
    forall t | 0 <= t < |s.threads| && Rank(s.threads[t].pc) > 0
      ensures !(HoldsLeft(s.threads[t]) && HoldsRight(s.threads[t])) && s.right - s.left + 1 < c.chunk
    {
      assert ThreadOk(c, s, s.threads[t]);
    }
    BadOwned(c, s);
    SwapsApart(c, s);
  }

  predicate Swapping(th: Thread) {
    th.pc.SwapLeft? || th.pc.SwapRight?
  }

  /** The first cell of the leftover chunk that a thread is exchanging; its spot begins at swapstart. */
  function SwapSource<T>(c: Round<T>, th: Thread): int {
    if th.pc.SwapLeft? then th.tlb - (c.chunk - 1) else th.trb
  }

  /** The chunks and spots of all running calls of swap_ranges are pairwise disjoint, those of one
      call included. */
  ghost predicate SwapsDisjoint<T>(c: Round<T>, s: State<T>) {
    forall t, u :: 0 <= t < |s.threads| && 0 <= u < |s.threads| && Swapping(s.threads[t]) && Swapping(s.threads[u]) ==>
      && RangesApart(c.chunk, SwapSource(c, s.threads[t]), s.threads[u].swapstart)
      && (t != u ==> RangesApart(c.chunk, SwapSource(c, s.threads[t]), SwapSource(c, s.threads[u])))
      && (t != u ==> RangesApart(c.chunk, s.threads[t].swapstart, s.threads[u].swapstart))
  }

  /** A swapping thread moves its chunk on the side its program point names. */
  lemma SwapIsMoving<T>(c: Round<T>, s: State<T>, t: int, d: End)
    requires Running(c, s) && 0 <= t < |s.threads|
    requires if d == Low then s.threads[t].pc.SwapLeft? else s.threads[t].pc.SwapRight?
    ensures SideOk(c, s, Low) && SideOk(c, s, High) && s.left <= s.right + 1
    ensures SpotLaw(SideOf(c, s, d), Zone(c, s, d), Leftover(s, d), Reserved(s, d))
    ensures Moving(SideOf(c, s, d), t, Zone(c, s, d))
  {
    hide Running, SpotLaw, Lawful, Aligned, InPlaceReserved;
    MovingSides(c, s, t);
    RunningSides(c, s);
  }

  lemma RunningSides<T>(c: Round<T>, s: State<T>)
    requires Running(c, s)
    ensures SideOk(c, s, Low) && SideOk(c, s, High) && s.left <= s.right + 1
  {
    hide SideOk, Table, Opening;
  }

  /** On one side ... */
  lemma SameSideApart<T>(c: Round<T>, s: State<T>, t: int, u: int, d: End)
    requires Running(c, s) && 0 <= t < |s.threads| && 0 <= u < |s.threads|
    requires if d == Low then s.threads[t].pc.SwapLeft? && s.threads[u].pc.SwapLeft?
             else s.threads[t].pc.SwapRight? && s.threads[u].pc.SwapRight?
    ensures RangesApart(c.chunk, SwapSource(c, s.threads[t]), s.threads[u].swapstart)
    ensures t != u ==> RangesApart(c.chunk, SwapSource(c, s.threads[t]), SwapSource(c, s.threads[u]))
    ensures t != u ==> RangesApart(c.chunk, s.threads[t].swapstart, s.threads[u].swapstart)
  {
    hide Running, SpotLaw, Lawful, Aligned;
    SwapIsMoving(c, s, t, d);
    SwapIsMoving(c, s, u, d);
    MovesApart(SideOf(c, s, d), t, u, Zone(c, s, d), Leftover(s, d), Reserved(s, d));
  }

  /** ... and across the two. */
  lemma OtherSideApart<T>(c: Round<T>, s: State<T>, t: int, u: int)
    requires Running(c, s) && 0 <= t < |s.threads| && 0 <= u < |s.threads|
    requires s.threads[t].pc.SwapLeft? && s.threads[u].pc.SwapRight?
    ensures SwapSource(c, s.threads[t]) + c.chunk <= s.threads[u].swapstart
    ensures SwapSource(c, s.threads[t]) + c.chunk <= SwapSource(c, s.threads[u])
    ensures s.threads[t].swapstart + c.chunk <= s.threads[u].swapstart
    ensures s.threads[t].swapstart + c.chunk <= SwapSource(c, s.threads[u])
  {
    hide Running, SpotLaw, Lawful, Aligned;
    SwapIsMoving(c, s, t, Low);
    SwapIsMoving(c, s, u, High);
    MoveInside(SideOf(c, s, Low), t, Zone(c, s, Low), Leftover(s, Low), Reserved(s, Low));
    MoveInside(SideOf(c, s, High), u, Zone(c, s, High), Leftover(s, High), Reserved(s, High));
    SideChunk(c, s);
  }

  lemma SideChunk<T>(c: Round<T>, s: State<T>)
    requires Lawful(SideOf(c, s, Low))
    ensures 1 <= c.chunk
  {
  }

  lemma SwapsApart<T>(c: Round<T>, s: State<T>)
    requires Running(c, s)
    ensures SwapsDisjoint(c, s)
  {
    hide Running;
    forall t, u | 0 <= t < |s.threads| && 0 <= u < |s.threads| && Swapping(s.threads[t]) && Swapping(s.threads[u])
      ensures RangesApart(c.chunk, SwapSource(c, s.threads[t]), s.threads[u].swapstart)
      ensures t != u ==> RangesApart(c.chunk, SwapSource(c, s.threads[t]), SwapSource(c, s.threads[u]))
      ensures t != u ==> RangesApart(c.chunk, s.threads[t].swapstart, s.threads[u].swapstart)
    {
      if s.threads[t].pc.SwapLeft? && s.threads[u].pc.SwapLeft? {
        SameSideApart(c, s, t, u, Low);
      } else if s.threads[t].pc.SwapRight? && s.threads[u].pc.SwapRight? {
        SameSideApart(c, s, t, u, High);
      } else if s.threads[t].pc.SwapLeft? {
        OtherSideApart(c, s, t, u);
      } else {
        OtherSideApart(c, s, u, t);
      }
    }
  }

  lemma BadOwnedLow<T>(c: Round<T>, s: State<T>, i: int)
    requires Lawful(SideOf(c, s, Low)) && 0 <= i < s.left && i < |s.a| && !c.pred(s.a[i])
    ensures exists t :: 0 <= t < |s.threads| && OwnsBadLeft(c, s.threads[t], i)
  {
    var v := SideOf(c, s, Low);
    assert !v.good[i];
    var t :| Dirty(v, t, i);
    assert v.lanes[t] == LaneOf(c, s.threads[t], Low);
    assert OwnsBadLeft(c, s.threads[t], i);
  }

  lemma BadOwnedHigh<T>(c: Round<T>, s: State<T>, i: int)
    requires Lawful(SideOf(c, s, High)) && |s.a| == c.n
    requires s.right < i < |s.a| && i >= 0 && c.pred(s.a[i])
    ensures exists t :: 0 <= t < |s.threads| && OwnsBadRight(c, s.threads[t], i)
  {
    var w := SideOf(c, s, High);
    assert !w.good[c.n - 1 - i];
    var t :| Dirty(w, t, c.n - 1 - i);
    assert w.lanes[t] == LaneOf(c, s.threads[t], High);
    assert OwnsBadRight(c, s.threads[t], i);
  }

  lemma BadOwned<T>(c: Round<T>, s: State<T>)
    requires SideOk(c, s, Low) && SideOk(c, s, High) && |s.a| == c.n
    ensures BadCellsOwned(c, s)
  {
    forall i | 0 <= i < s.left && i < |s.a| && !c.pred(s.a[i])
      ensures exists t :: 0 <= t < |s.threads| && OwnsBadLeft(c, s.threads[t], i)
    {
      BadOwnedLow(c, s, i);
    }
    forall i | s.right < i < |s.a| && i >= 0 && c.pred(s.a[i])
      ensures exists t :: 0 <= t < |s.threads| && OwnsBadRight(c, s.threads[t], i)
    {
      BadOwnedHigh(c, s, i);
    }
  }

  // ----- no deadlock -----

  lemma {:induction false} LeastRank<T>(s: State<T>, m: nat) returns (t: int)
    requires 1 <= m <= |s.threads|
    ensures 0 <= t < m && forall u :: 0 <= u < m ==> Rank(s.threads[t].pc) <= Rank(s.threads[u].pc)
  {
    t := 0;
    if m > 1 {
      t := LeastRank(s, m - 1);
      if Rank(s.threads[m - 1].pc) < Rank(s.threads[t].pc) {
        t := m - 1;
      }
    }
  }

  /** As long as some thread is not done, some thread can move. */
  lemma NoDeadlock<T>(s: State<T>)
    requires !AllDone(s)
    ensures exists t :: Enabled(s, t)
  {
    var t := LeastRank(s, |s.threads|);
    assert Rank(s.threads[t].pc) < 14;
    assert Enabled(s, t);
  }

  /** Where nobody can move, everybody is done. */
  lemma QuietIsDone<T>(s: State<T>)
    requires forall t :: !Enabled(s, t)
    ensures AllDone(s)
  {
    if !AllDone(s) {
      NoDeadlock(s);
    }
  }

  // ----- termination -----

  function Remaining(from: int, to: int): nat {
    if from <= to then to - from + 1 else 0
  }

  /** How much a thread still has to do. */
  function Pot<T>(c: Round<T>, th: Thread): int {
    var pc := th.pc;
    if Rank(pc) == 0 then
      2 * c.chunk + 20 + 4 * Remaining(th.tl, th.tlb) + 4 * Remaining(th.trb, th.tr) +
      (if pc.Start? then 10
       else if pc.FetchLeft? then 3
       else if pc.FetchRight? then (if HoldsLeft(th) && HoldsRight(th) then 8 else 2)
       else if pc.Test? then (if th.finished then 1 else 7)
       else if pc.ScanLeft? then 6
       else if pc.ScanRight? then 5
       else 4)
    else if Rank(pc) <= 8 then 2 * c.chunk + 20 - Rank(pc)
    else if pc.SwapLeft? then 2 * c.chunk + 11 - th.k
    else if pc.FindRight? then c.chunk + 10
    else if pc.SwapRight? then c.chunk + 9 - th.k
    else 20 - Rank(pc)
  }

  function Total<T>(c: Round<T>, threads: seq<Thread>): int {
    if threads == [] then 0 else Pot(c, threads[0]) + Total(c, threads[1..])
  }

  lemma {:induction false} TotalUpdate<T>(c: Round<T>, threads: seq<Thread>, t: int, th: Thread)
    requires 0 <= t < |threads|
    ensures Total(c, threads[t := th]) == Total(c, threads) - Pot(c, threads[t]) + Pot(c, th)
    decreases |threads|
  {
    if t == 0 {
      assert threads[t := th][1..] == threads[1..];
    } else {
      assert threads[t := th][1..] == threads[1..][t - 1 := th];
      TotalUpdate(c, threads[1..], t - 1, th);
    }
  }

  /** The work left in a round. */
  function Work<T>(c: Round<T>, s: State<T>): int {
    (if SomeDone(s) then 0 else 16 * (s.right - s.left + 1)) + Total(c, s.threads)
  }

  lemma {:induction false} TotalNatural<T>(c: Round<T>, threads: seq<Thread>)
    requires forall t :: 0 <= t < |threads| ==> Pot(c, threads[t]) >= 0
    ensures Total(c, threads) >= 0
    decreases |threads|
  {
    if threads != [] {
      assert forall t :: 0 <= t < |threads| - 1 ==> threads[1..][t] == threads[t + 1];
      TotalNatural(c, threads[1..]);
    }
  }

  lemma PotNatural<T>(c: Round<T>, s: State<T>, th: Thread)
    requires 1 <= c.chunk && (Rank(th.pc) >= 12 || ThreadOk(c, s, th))
    ensures Pot(c, th) >= 0
  {
  }

  /** The work left is never negative. */
  lemma WorkNatural<T>(c: Round<T>, s: State<T>)
    requires Inv(c, s)
    ensures Work(c, s) >= 0
  {
    forall t | 0 <= t < |s.threads|
      ensures Pot(c, s.threads[t]) >= 0
    {
      PotNatural(c, s, s.threads[t]);
    }
    TotalNatural(c, s.threads);
  }

  // Every enabled step strictly reduces the work, so no schedule can go on for ever.

  lemma WorkOfPut<T>(c: Round<T>, s: State<T>, s': State<T>, t: int)
    requires 0 <= t < |s.threads| == |s'.threads| && s'.threads == s.threads[t := s'.threads[t]]
    requires Rank(s'.threads[t].pc) < 14 && !SomeDone(s)
    ensures Work(c, s') - Work(c, s) ==
            16 * ((s'.right - s'.left) - (s.right - s.left)) + Pot(c, s'.threads[t]) - Pot(c, s.threads[t])
  {
    TotalUpdate(c, s.threads, t, s'.threads[t]);
    NotDone(s, s', t);
  }

  /** The change of work, from one thread's point of view. */
  predicate LessToDo<T>(c: Round<T>, s: State<T>, s': State<T>, t: int)
    requires 0 <= t < |s.threads| && t < |s'.threads|
  {
    16 * ((s'.right - s'.left) - (s.right - s.left)) + Pot(c, s'.threads[t]) < Pot(c, s.threads[t])
  }

  lemma FetchPot<T>(c: Round<T>, s: State<T>, t: int)
    requires 0 <= t < |s.threads| && ThreadOk(c, s, s.threads[t]) && 1 <= c.chunk
    ensures s.threads[t].pc == FetchLeft ==> LessToDo(c, s, FetchLeftStep(c, s, t), t)
    ensures s.threads[t].pc == FetchRight ==> LessToDo(c, s, FetchRightStep(c, s, t), t)
  {
  }

  lemma EarlyPot<T>(c: Round<T>, s: State<T>, t: int)
    requires StepSafe(c, s, t) && ThreadOk(c, s, s.threads[t]) && 1 <= c.chunk
    requires Rank(s.threads[t].pc) < 3
    ensures LessToDo(c, s, EarlyStep(c, s, t), t)
  {
    hide FetchLeftStep, FetchRightStep;
    if s.threads[t].pc == FetchLeft || s.threads[t].pc == FetchRight {
      FetchPot(c, s, t);
    }
  }

  lemma EarlyWork<T>(c: Round<T>, s: State<T>, t: int)
    requires Running(c, s) && !SomeDone(s) && 0 <= t < |s.threads| && Rank(s.threads[t].pc) < 3
    requires StepSafe(c, s, t)
    ensures Work(c, EarlyStep(c, s, t)) < Work(c, s)
  {
    hide Running, Work, SomeDone, Total, Pot;
    ThreadFacts(c, s, t);
    WorkOfPut(c, s, EarlyStep(c, s, t), t);
    EarlyPot(c, s, t);
  }

  lemma ThreadFacts<T>(c: Round<T>, s: State<T>, t: int)
    requires Running(c, s) && 0 <= t < |s.threads|
    ensures ThreadOk(c, s, s.threads[t]) && 1 <= c.chunk
  {
  }

  lemma MiddleWork<T>(c: Round<T>, s: State<T>, t: int)
    requires Running(c, s) && !SomeDone(s) && 0 <= t < |s.threads| && 3 <= Rank(s.threads[t].pc) < 8
    requires StepSafe(c, s, t)
    ensures Work(c, MiddleStep(c, s, t)) < Work(c, s)
  {
    hide Running, Work, SomeDone, Total;
    WorkOfPut(c, s, MiddleStep(c, s, t), t);
  }

  lemma MovingPot<T>(c: Round<T>, s: State<T>, t: int)
    requires StepSafe(c, s, t) && ThreadOk(c, s, s.threads[t]) && 1 <= c.chunk
    requires 8 <= Rank(s.threads[t].pc) < 13
    ensures LessToDo(c, s, MovingStep(c, s, t), t)
  {
  }

  lemma MovingWork<T>(c: Round<T>, s: State<T>, t: int)
    requires Running(c, s) && !SomeDone(s) && 0 <= t < |s.threads| && 8 <= Rank(s.threads[t].pc) < 13
    requires StepSafe(c, s, t)
    ensures Work(c, MovingStep(c, s, t)) < Work(c, s)
  {
    hide Running, Work, SomeDone, Total, Pot;
    ThreadFacts(c, s, t);
    WorkOfPut(c, s, MovingStep(c, s, t), t);
    MovingPot(c, s, t);
  }

  lemma ClosingEffect<T>(c: Round<T>, s: State<T>, t: int)
    requires Enabled(s, t) && Rank(s.threads[t].pc) >= 12
    requires SomeDone(s) || s.threads[t].pc == Publish
    ensures StepSafe(c, s, t)
    ensures var s' := Step(c, s, t);
            && |s'.threads| == |s.threads| && s'.threads == s.threads[t := s'.threads[t]]
            && Pot(c, s'.threads[t]) < Pot(c, s.threads[t]) && SomeDone(s')
  {
    var s' := Step(c, s, t);
    if SomeDone(s) {
      var u :| 0 <= u < |s.threads| && s.threads[u].pc == Done;
      assert s'.threads[u].pc == Done;
    } else {
      assert s'.threads[t].pc == Done;
    }
  }

  /** The end game: barrier 4 and the publication, also after the first publication. */
  lemma ClosingWork<T>(c: Round<T>, s: State<T>, t: int)
    requires Inv(c, s) && Enabled(s, t) && Rank(s.threads[t].pc) >= 12
    requires SomeDone(s) || s.threads[t].pc == Publish
    ensures StepSafe(c, s, t) && Work(c, Step(c, s, t)) < Work(c, s)
  {
    hide Inv, Total, Pot, SomeDone;
    ZoneNatural(c, s);
    ClosingEffect(c, s, t);
    TotalUpdate(c, s.threads, t, Step(c, s, t).threads[t]);
  }

  lemma ZoneNatural<T>(c: Round<T>, s: State<T>)
    requires Inv(c, s)
    ensures SomeDone(s) || s.right - s.left + 1 >= 0
  {
  }

  lemma DoneLate<T>(c: Round<T>, s: State<T>, t: int)
    requires Inv(c, s) && 0 <= t < |s.threads|
    ensures SomeDone(s) ==> Rank(s.threads[t].pc) >= 12
    ensures !SomeDone(s) ==> Running(c, s)
  {
  }

  /** Termination in every interleaving: an enabled step reduces the work, which is never negative. */
  lemma StepWorks<T>(c: Round<T>, s: State<T>, t: int)
    requires Inv(c, s) && Enabled(s, t)
    ensures StepSafe(c, s, t) && Work(c, Step(c, s, t)) < Work(c, s)
  {
    hide Inv, Running, Published, SomeDone, Work, StepSafe, EarlyStep, MiddleStep, MovingStep;
    StepKeeps(c, s, t);
    DoneLate(c, s, t);
    if SomeDone(s) || s.threads[t].pc == Publish {
      ClosingWork(c, s, t);
    } else if Rank(s.threads[t].pc) < 3 {
      EarlyWork(c, s, t);
    } else if Rank(s.threads[t].pc) < 8 {
      MiddleWork(c, s, t);
    } else {
      MovingWork(c, s, t);
    }
  }
}
