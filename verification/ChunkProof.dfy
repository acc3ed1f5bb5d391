/** Every step of every thread keeps the invariant of a parallel round (mcstl_partition.h). */
module ChunkProof {
  import opened ChunkSide
  import opened ChunkRound

  predicate SameCounters<T>(s: State<T>, s': State<T>) {
    && s'.leftoverLeft == s.leftoverLeft && s'.leftoverRight == s.leftoverRight
    && s'.leftnew == s.leftnew && s'.rightnew == s.rightnew && s'.singleDone == s.singleDone
  }

  predicate SameTables<T>(s: State<T>, s': State<T>) {
    s'.reservedLeft == s.reservedLeft && s'.reservedRight == s.reservedRight
  }

  // ----- what a step of one thread leaves alone -----

  lemma StableThread<T>(c: Round<T>, s: State<T>, s': State<T>, th: Thread)
    requires ThreadOk(c, s, th)
    requires s.left <= s'.left && s'.right <= s.right && |s'.a| == |s.a|
    requires Rank(th.pc) >= 7 ==> s'.leftnew == s.leftnew && s'.rightnew == s.rightnew
    requires th.pc in {ScanRight, Exchange} && HoldsLeft(th) && 0 <= th.tl < |s.a| ==> s'.a[th.tl] == s.a[th.tl]
    requires th.pc == Exchange && HoldsRight(th) && 0 <= th.tr < |s.a| ==> s'.a[th.tr] == s.a[th.tr]
    ensures ThreadOk(c, s', th)
  {
  }

  /** Going from one rank to another crosses no barrier that is still closed. */
  predicate Passes<T>(s: State<T>, from: int, to: int) {
    && (to > 3 ==> from > 3 || AllReached(s, 3))
    && (to > 5 ==> from > 5 || AllReached(s, 5))
    && (to > 7 ==> from > 7 || AllReached(s, 7))
    && (to > 12 ==> from > 12 || AllReached(s, 12))
  }

  lemma KeepPhases<T>(s: State<T>, s': State<T>, t: int, th: Thread)
    requires Phases(s) && 0 <= t < |s.threads|
    requires s'.threads == s.threads[t := th]
    requires Rank(th.pc) >= Rank(s.threads[t].pc)
    requires Passes(s, Rank(s.threads[t].pc), Rank(th.pc))
    requires Rank(th.pc) >= 5 ==> s'.singleDone
    requires s.singleDone ==> s'.singleDone
    ensures Phases(s')
    ensures forall b :: AllReached(s, b) ==> AllReached(s', b)
  {
    assert Behind(s, Rank(s.threads[t].pc));
    forall b | AllReached(s, b)
      ensures AllReached(s', b)
    {
      forall u | 0 <= u < |s'.threads|
        ensures Rank(s'.threads[u].pc) >= b
      {
        assert Rank(s.threads[u].pc) >= b;
      }
    }
    forall u | 0 <= u < |s'.threads|
      ensures Behind(s', Rank(s'.threads[u].pc))
    {
      if u != t {
        assert Behind(s, Rank(s.threads[u].pc));
      }
    }
  }

  /** The set of announced leftovers changes only at the announcing steps. */
  lemma KeepCounted<T>(s: State<T>, s': State<T>, t: int, d: End)
    requires 0 <= t < |s.threads| == |s'.threads|
    requires s'.threads == s.threads[t := s'.threads[t]]
    requires CountedAt(s, d, t) <==> CountedAt(s', d, t)
    ensures Counted(s', d) == Counted(s, d)
  {
    assert forall u :: u != t ==> (CountedAt(s', d, u) <==> CountedAt(s, d, u));
  }

  lemma AddCounted<T>(s: State<T>, s': State<T>, t: int, d: End)
    requires 0 <= t < |s.threads| == |s'.threads|
    requires s'.threads == s.threads[t := s'.threads[t]]
    requires !CountedAt(s, d, t) && CountedAt(s', d, t)
    ensures |Counted(s', d)| == |Counted(s, d)| + 1
  {
    assert forall u :: u != t ==> (CountedAt(s', d, u) <==> CountedAt(s, d, u));
    assert Counted(s', d) == Counted(s, d) + {t};
  }

  /** Once a thread has left the opening phase, a right chunk has been handed out. */
  lemma OpeningOver<T>(c: Round<T>, s: State<T>, t: int)
    requires Running(c, s) && 0 <= t < |s.threads|
    requires s.threads[t].pc !in {Start, FetchLeft, FetchRight}
    ensures s.right < c.last
  {
  }

  /** While some thread is before the first barrier nothing is reserved. */
  lemma NothingReserved<T>(c: Round<T>, s: State<T>, t: int)
    requires Running(c, s) && 0 <= t < |s.threads| && Rank(s.threads[t].pc) < 3
    ensures !s.singleDone
    ensures Unreserved(SideOf(c, s, Low)) && Unreserved(SideOf(c, s, High))
  {
    assert Table(c, s, Low);
    forall u | 0 <= u < |s.threads|
      ensures s.threads[u].spot == -1 && s.threads[u].k == 0
    {
      assert ThreadOk(c, s, s.threads[u]);
    }
  }

  /** After the announcements, the announced threads are exactly the holders. */
  lemma CountedIsHeld<T>(c: Round<T>, s: State<T>, d: End)
    requires AllReached(s, 3)
    ensures HeldSet(SideOf(c, s, d)) == Counted(s, d)
  {
    var v := SideOf(c, s, d);
    forall u
      ensures u in HeldSet(v) <==> u in Counted(s, d)
    {
      if 0 <= u < |s.threads| {
        assert v.lanes[u] == LaneOf(c, s.threads[u], d);
      }
    }
  }

  /** The middle zone fits between the base and the edge of a side. */
  lemma ZoneFits<T>(c: Round<T>, s: State<T>, d: End)
    requires Running(c, s) && AllReached(s, 3)
    requires Zone(c, s, d) == SpotStart(SideOf(c, s, d).edge, c.chunk, Leftover(s, d) - 1)
    ensures SideOf(c, s, d).base <= Zone(c, s, d)
    ensures Zone(c, s, d) == SideOf(c, s, d).edge - Leftover(s, d) * c.chunk
  {
    CountedIsHeld(c, s, d);
    SpotStartIs(SideOf(c, s, d).edge, c.chunk, Leftover(s, d) - 1);
  }

  /** A step that moves only a program counter (or a local flag). */
  lemma SamePlace<T>(c: Round<T>, s: State<T>, s': State<T>, t: int, d: End)
    requires 0 <= t < |s.threads| == |s'.threads|
    requires s'.a == s.a && s'.left == s.left && s'.right == s.right
    requires s'.threads == s.threads[t := s'.threads[t]]
    requires LaneOf(c, s'.threads[t], d) == LaneOf(c, s.threads[t], d)
    ensures SideOf(c, s', d) == SideOf(c, s, d)
  {
    assert Lanes(c, s'.threads, d) == Lanes(c, s.threads, d);
  }

  /** Threads other than t do not notice a step of t that leaves the array alone. */
  lemma OthersStay<T>(c: Round<T>, s: State<T>, s': State<T>, t: int)
    requires Running(c, s) && 0 <= t < |s.threads| == |s'.threads|
    requires s'.a == s.a && s.left <= s'.left && s'.right <= s.right
    requires s'.threads == s.threads[t := s'.threads[t]]
    requires s'.leftnew == s.leftnew && s'.rightnew == s.rightnew
    requires ThreadOk(c, s', s'.threads[t])
    ensures forall u :: 0 <= u < |s'.threads| ==> ThreadOk(c, s', s'.threads[u])
  {
    forall u | 0 <= u < |s'.threads|
      ensures ThreadOk(c, s', s'.threads[u])
    {
      if u != t {
        StableThread(c, s, s', s.threads[u]);
      }
    }
  }

  lemma NotDone<T>(s: State<T>, s': State<T>, t: int)
    requires 0 <= t < |s.threads| == |s'.threads|
    requires s'.threads == s.threads[t := s'.threads[t]]
    requires !SomeDone(s) && s'.threads[t].pc != Done
    ensures !SomeDone(s')
  {
  }

  // ----- the steps that change no chunk -----

  predicate SamePrivate(th: Thread, th': Thread) {
    && th'.tl == th.tl && th'.tlb == th.tlb && th'.tr == th.tr && th'.trb == th.trb
    && th'.spot == th.spot && th'.swapstart == th.swapstart && th'.k == th.k
  }

  lemma TableKept<T>(c: Round<T>, s: State<T>, s': State<T>, t: int, d: End)
    requires Table(c, s, d) && 0 <= t < |s.threads| == |s'.threads|
    requires s'.threads == s.threads[t := s'.threads[t]]
    requires CountedAt(s, d, t) <==> CountedAt(s', d, t)
    requires Leftover(s', d) == Leftover(s, d) && Reserved(s', d) == Reserved(s, d) && s'.singleDone == s.singleDone
    requires s.singleDone ==> AllReached(s', 3) && SideOf(c, s', d) == SideOf(c, s, d) && Zone(c, s', d) == Zone(c, s, d)
    ensures Table(c, s', d)
  {
    KeepCounted(s, s', t, d);
  }

  lemma Parts<T>(c: Round<T>, s: State<T>)
    requires Running(c, s)
    ensures Shape(c, s) && SideOk(c, s, Low) && SideOk(c, s, High) && Phases(s)
    ensures Table(c, s, Low) && Table(c, s, High) && Opening(c, s)
    ensures forall t :: 0 <= t < |s.threads| ==> ThreadOk(c, s, s.threads[t])
  {
  }

  lemma Whole<T>(c: Round<T>, s: State<T>)
    requires Shape(c, s) && SideOk(c, s, Low) && SideOk(c, s, High) && Phases(s)
    requires Table(c, s, Low) && Table(c, s, High) && Opening(c, s) && !SomeDone(s)
    requires forall t :: 0 <= t < |s.threads| ==> ThreadOk(c, s, s.threads[t])
    ensures Inv(c, s)
  {
  }

  /** What is known about a thread at its program point. */
  lemma AtPoint<T>(c: Round<T>, s: State<T>, t: int)
    requires Running(c, s) && 0 <= t < |s.threads|
    ensures Shape(c, s) && ThreadOk(c, s, s.threads[t]) && Behind(s, Rank(s.threads[t].pc))
  {
  }

  /** Steps that only move on: the inner loop's exits, the barriers, and passing over work that
      is not this thread's. */
  lemma MoveOn<T>(c: Round<T>, s: State<T>, s': State<T>, t: int)
    requires Running(c, s) && !SomeDone(s) && 0 <= t < |s.threads|
    requires s.threads[t].pc !in {Start, FetchLeft, FetchRight}
    requires |s'.threads| == |s.threads| && s'.threads == s.threads[t := s'.threads[t]]
    requires s'.a == s.a && s'.left == s.left && s'.right == s.right && SameCounters(s, s') && SameTables(s, s')
    requires SamePrivate(s.threads[t], s'.threads[t])
    requires CountedAt(s, Low, t) <==> CountedAt(s', Low, t)
    requires CountedAt(s, High, t) <==> CountedAt(s', High, t)
    requires ThreadOk(c, s', s'.threads[t]) && s'.threads[t].pc != Done
    requires Rank(s'.threads[t].pc) >= Rank(s.threads[t].pc)
    requires Passes(s, Rank(s.threads[t].pc), Rank(s'.threads[t].pc))
    requires Rank(s'.threads[t].pc) >= 5 ==> s.singleDone
    ensures Inv(c, s')
  {
    hide Running, Inv, SideOk, Table, Phases, ThreadOk;
    Parts(c, s);
    SamePlace(c, s, s', t, Low);
    SamePlace(c, s, s', t, High);
    OthersStay(c, s, s', t);
    NotDone(s, s', t);
    KeepPhases(s, s', t, s'.threads[t]);
    OpeningOver(c, s, t);
    TableKept(c, s, s', t, Low);
    TableKept(c, s, s', t, High);
    Whole(c, s');
  }

  // ----- fetching chunks -----

  /** A step of thread t shows on side d as an update of its lane. */
  lemma LanesUpdate<T>(c: Round<T>, s: State<T>, s': State<T>, t: int, d: End)
    requires 0 <= t < |s.threads| == |s'.threads|
    requires s'.threads == s.threads[t := s'.threads[t]]
    ensures Lanes(c, s'.threads, d) == Lanes(c, s.threads, d)[t := LaneOf(c, s'.threads[t], d)]
  {
  }

  /** The bookkeeping of a step inside the fetch-and-neutralise loop. */
  lemma LoopStep<T>(c: Round<T>, s: State<T>, s': State<T>, t: int)
    requires Running(c, s) && !SomeDone(s) && 0 <= t < |s.threads| == |s'.threads|
    requires s'.threads == s.threads[t := s'.threads[t]]
    requires Rank(s.threads[t].pc) == 0 && Rank(s'.threads[t].pc) == 0
    requires SameCounters(s, s') && SameTables(s, s')
    requires Shape(c, s') && Opening(c, s')
    requires SideOk(c, s', Low) && SideOk(c, s', High)
    requires forall u :: 0 <= u < |s'.threads| ==> ThreadOk(c, s', s'.threads[u])
    ensures Inv(c, s')
  {
    NotDone(s, s', t);
    KeepPhases(s, s', t, s'.threads[t]);
    NothingReserved(c, s, t);
    TableKept(c, s, s', t, Low);
    TableKept(c, s, s', t, High);
  }

  lemma StartSide<T>(c: Round<T>, s: State<T>, s': State<T>, t: int, d: End)
    requires Running(c, s) && 0 <= t < |s.threads| && s.threads[t].pc == Start
    requires s' == StartStep(c, s, t)
    ensures SideOk(c, s', d)
  {
    assert ThreadOk(c, s, s.threads[t]);
    LanesUpdate(c, s, s', t, d);
    IdleLaneKeeps(SideOf(c, s, d), SideOf(c, s', d), t);
    KeepAligned(SideOf(c, s, d), SideOf(c, s', d));
  }

  lemma StartKeeps<T>(c: Round<T>, s: State<T>, t: int)
    requires Running(c, s) && !SomeDone(s) && 0 <= t < |s.threads| && s.threads[t].pc == Start
    ensures Inv(c, StartStep(c, s, t))
  {
    hide Table, Phases;
    var s' := StartStep(c, s, t);
    StartSide(c, s, s', t, Low);
    StartSide(c, s, s', t, High);
    OthersStay(c, s, s', t);
    assert Waiting(s') == Waiting(s) by {
      assert forall u :: AtFetchRight(s', u) <==> AtFetchRight(s, u);
    }
    LoopStep(c, s, s', t);
  }

  lemma WaitingFew<T>(s: State<T>, t: int)
    requires 0 <= t < |s.threads|
    ensures |Waiting(s)| <= |s.threads|
    ensures s.threads[t].pc != FetchRight ==> |Waiting(s)| < |s.threads|
  {
    RangeCard(|s.threads|);
    assert forall u :: AtFetchRight(s, u) ==> InRange(u, |s.threads|);
    assert InRange(t, |s.threads|);
    SubsetCard(Waiting(s), Range(|s.threads|));
    if s.threads[t].pc != FetchRight {
      SubsetCard(Waiting(s), Range(|s.threads|) - {t});
    }
  }

  /** In the opening phase there is always room for one more chunk. */
  lemma OpeningRoom<T>(c: Round<T>, s: State<T>, t: int)
    requires Shape(c, s) && Opening(c, s) && s.right == c.last && 0 <= t < |s.threads|
    ensures s.left + c.chunk <= s.right + 1
  {
    WaitingFew(s, t);
    var free := c.threads - |Waiting(s)|;
    assert c.threads * c.chunk == |Waiting(s)| * c.chunk + free * c.chunk;
    assert free * c.chunk >= 0;
    MulAtLeast(c.threads, c.chunk);
  }

  /** ... and nobody holds a right chunk. */
  lemma OpeningNoRight<T>(c: Round<T>, s: State<T>, t: int)
    requires Shape(c, s) && SideOk(c, s, High) && s.right == c.last && 0 <= t < |s.threads|
    ensures !HoldsRight(s.threads[t])
  {
    var v := SideOf(c, s, High);
    assert v.lanes[t].cur <= v.lanes[t].end <==> HoldsRight(s.threads[t]);
    assert HeldAt(v, t) <==> HoldsRight(s.threads[t]);
  }

  lemma FetchLeftSides<T>(c: Round<T>, s: State<T>, s': State<T>, t: int)
    requires Running(c, s) && 0 <= t < |s.threads| && s.threads[t].pc == FetchLeft
    requires s' == FetchLeftStep(c, s, t)
    ensures SideOk(c, s', Low) && SideOk(c, s', High)
  {
    hide Running, Table, Phases, Opening, Lawful, Aligned;
    Parts(c, s);
    AtPoint(c, s, t);
    LanesUpdate(c, s, s', t, Low);
    NothingReserved(c, s, t);
    SamePlaceHigh(c, s, s', t);
    if !HoldsLeft(s.threads[t]) && s.left + (c.chunk - 1) <= s.right {
      assert s.threads[t].spot == -1 && s.threads[t].k == 0 by {
        assert ThreadOk(c, s, s.threads[t]);
      }
      FetchKeeps(SideOf(c, s, Low), SideOf(c, s', Low), t);
      FetchAligned(SideOf(c, s, Low), SideOf(c, s', Low), t);
    } else {
      SamePlace(c, s, s', t, Low);
    }
  }

  lemma SamePlaceHigh<T>(c: Round<T>, s: State<T>, s': State<T>, t: int)
    requires 0 <= t < |s.threads| == |s'.threads|
    requires s'.a == s.a && s'.right == s.right
    requires s'.threads == s.threads[t := s'.threads[t]]
    requires LaneOf(c, s'.threads[t], High) == LaneOf(c, s.threads[t], High)
    ensures SideOf(c, s', High) == SideOf(c, s, High)
  {
    assert Lanes(c, s'.threads, High) == Lanes(c, s.threads, High);
  }

  lemma SamePlaceLow<T>(c: Round<T>, s: State<T>, s': State<T>, t: int)
    requires 0 <= t < |s.threads| == |s'.threads|
    requires s'.a == s.a && s'.left == s.left
    requires s'.threads == s.threads[t := s'.threads[t]]
    requires LaneOf(c, s'.threads[t], Low) == LaneOf(c, s.threads[t], Low)
    ensures SideOf(c, s', Low) == SideOf(c, s, Low)
  {
    assert Lanes(c, s'.threads, Low) == Lanes(c, s.threads, Low);
  }

  lemma FetchLeftOpening<T>(c: Round<T>, s: State<T>, s': State<T>, t: int)
    requires Shape(c, s) && Opening(c, s) && 0 <= t < |s.threads| && s.threads[t].pc == FetchLeft
    requires s' == FetchLeftStep(c, s, t)
    ensures Opening(c, s')
  {
    if s.right == c.last {
      OpeningRoom(c, s, t);
      assert Waiting(s') == Waiting(s) + {t} by {
        assert forall u :: u != t ==> (AtFetchRight(s', u) <==> AtFetchRight(s, u));
        assert AtFetchRight(s', t);
      }
      assert (|Waiting(s)| + 1) * c.chunk == |Waiting(s)| * c.chunk + c.chunk;
    }
  }

  lemma FetchLeftKeeps<T>(c: Round<T>, s: State<T>, t: int)
    requires Running(c, s) && !SomeDone(s) && 0 <= t < |s.threads| && s.threads[t].pc == FetchLeft
    ensures Inv(c, FetchLeftStep(c, s, t))
  {
    hide Running, Inv, SideOk, Table, Phases;
    Parts(c, s);
    AtPoint(c, s, t);
    var s' := FetchLeftStep(c, s, t);
    assert ThreadOk(c, s, s.threads[t]);
    FetchLeftSides(c, s, s', t);
    FetchLeftOpening(c, s, s', t);
    OthersStay(c, s, s', t);
    LoopStep(c, s, s', t);
  }

  lemma FetchRightSides<T>(c: Round<T>, s: State<T>, s': State<T>, t: int)
    requires Running(c, s) && 0 <= t < |s.threads| && s.threads[t].pc == FetchRight
    requires s' == FetchRightStep(c, s, t)
    ensures SideOk(c, s', Low) && SideOk(c, s', High)
  {
    hide Running, Table, Phases, Opening, Lawful, Aligned;
    Parts(c, s);
    AtPoint(c, s, t);
    LanesUpdate(c, s, s', t, High);
    NothingReserved(c, s, t);
    SamePlaceLow(c, s, s', t);
    if !HoldsRight(s.threads[t]) && s.left <= s.right - (c.chunk - 1) {
      assert s.threads[t].spot == -1 && s.threads[t].k == 0 by {
        assert ThreadOk(c, s, s.threads[t]);
      }
      FetchKeeps(SideOf(c, s, High), SideOf(c, s', High), t);
      FetchAligned(SideOf(c, s, High), SideOf(c, s', High), t);
    } else {
      SamePlace(c, s, s', t, High);
    }
  }

  lemma FetchRightKeeps<T>(c: Round<T>, s: State<T>, t: int)
    requires Running(c, s) && !SomeDone(s) && 0 <= t < |s.threads| && s.threads[t].pc == FetchRight
    ensures Inv(c, FetchRightStep(c, s, t))
  {
    hide Running, Inv, SideOk, Table, Phases;
    Parts(c, s);
    AtPoint(c, s, t);
    var s' := FetchRightStep(c, s, t);
    assert ThreadOk(c, s, s.threads[t]);
    if s.right == c.last {
      OpeningRoom(c, s, t);
      OpeningNoRight(c, s, t);
    }
    FetchRightSides(c, s, s', t);
    OthersStay(c, s, s', t);
    LoopStep(c, s, s', t);
  }

  // ----- neutralising -----

  /** The two chunks a thread works on are disjoint and inside the fetched ranges. */
  lemma ChunkFacts<T>(c: Round<T>, s: State<T>, t: int)
    requires SideOk(c, s, Low) && SideOk(c, s, High) && 0 <= t < |s.threads|
    ensures HoldsLeft(s.threads[t]) ==>
              c.first <= s.threads[t].tlb - c.chunk + 1 <= s.threads[t].tl && s.threads[t].tlb < s.left
    ensures HoldsRight(s.threads[t]) ==>
              s.threads[t].tr <= s.threads[t].trb + c.chunk - 1 <= c.last && s.right < s.threads[t].trb
  {
    var v, w := SideOf(c, s, Low), SideOf(c, s, High);
    if HoldsLeft(s.threads[t]) {
      assert HeldAt(v, t);
      assert Placed(v, v.lanes[t]);
    }
    if HoldsRight(s.threads[t]) {
      assert HeldAt(w, t);
      assert Placed(w, w.lanes[t]);
    }
  }

  lemma PassAligned<T>(c: Round<T>, s: State<T>, s': State<T>, t: int, d: End)
    requires SideOk(c, s, d) && 0 <= t < |s.threads| == |s'.threads|
    requires s'.left == s.left && s'.right == s.right
    requires s'.threads == s.threads[t := s'.threads[t]]
    requires LaneOf(c, s'.threads[t], d) == LaneOf(c, s.threads[t], d).(cur := LaneOf(c, s.threads[t], d).cur + 1)
    ensures Aligned(SideOf(c, s', d))
  {
    LanesUpdate(c, s, s', t, d);
    KeepAligned(SideOf(c, s, d), SideOf(c, s', d));
  }

  /** The current cell of side d is passed because it is good. */
  lemma PassSide<T>(c: Round<T>, s: State<T>, s': State<T>, t: int, d: End)
    requires SideOk(c, s, d) && Unreserved(SideOf(c, s, d))
    requires 0 <= t < |s.threads| == |s'.threads|
    requires s'.left == s.left && s'.right == s.right && |s'.a| == |s.a|
    requires s'.threads == s.threads[t := s'.threads[t]]
    requires HeldAt(SideOf(c, s, d), t)
    requires LaneOf(c, s'.threads[t], d) == LaneOf(c, s.threads[t], d).(cur := LaneOf(c, s.threads[t], d).cur + 1)
    requires var i := LaneOf(c, s.threads[t], d).cur;
             && (0 <= i < |s.a| ==> GoodCells(c, s'.a, d)[i])
             && (forall j :: 0 <= j < SideOf(c, s, d).edge && j < |s.a| && j != i ==>
                   GoodCells(c, s'.a, d)[j] == GoodCells(c, s.a, d)[j])
    ensures SideOk(c, s', d)
  {
    LanesUpdate(c, s, s', t, d);
    AdvanceKeeps(SideOf(c, s, d), SideOf(c, s', d), t);
    PassAligned(c, s, s', t, d);
  }

  lemma ScanLeftPass<T>(c: Round<T>, s: State<T>, s': State<T>, t: int)
    requires Running(c, s) && 0 <= t < |s.threads| && s.threads[t].pc == ScanLeft
    requires 0 <= s.threads[t].tl < |s.a| && c.pred(s.a[s.threads[t].tl]) && HoldsLeft(s.threads[t])
    requires s' == ScanLeftStep(c, s, t)
    ensures SideOk(c, s', Low) && SideOk(c, s', High)
    ensures ThreadOk(c, s', s'.threads[t])
  {
    assert ThreadOk(c, s, s.threads[t]);
    NothingReserved(c, s, t);
    SamePlaceHigh(c, s, s', t);
    PassSide(c, s, s', t, Low);
  }

  lemma ScanLeftKeeps<T>(c: Round<T>, s: State<T>, t: int)
    requires Running(c, s) && !SomeDone(s) && 0 <= t < |s.threads| && s.threads[t].pc == ScanLeft
    ensures 0 <= s.threads[t].tl < |s.a| && Inv(c, ScanLeftStep(c, s, t))
  {
    hide Running, Inv, SideOk, Table, Phases, Opening;
    Parts(c, s);
    var s' := ScanLeftStep(c, s, t);
    if c.pred(s.a[s.threads[t].tl]) && HoldsLeft(s.threads[t]) {
      OpeningOver(c, s, t);
      ScanLeftPass(c, s, s', t);
      OthersStay(c, s, s', t);
      LoopStep(c, s, s', t);
    } else {
      MoveOn(c, s, s', t);
    }
  }

  lemma ScanRightPass<T>(c: Round<T>, s: State<T>, s': State<T>, t: int)
    requires Running(c, s) && 0 <= t < |s.threads| && s.threads[t].pc == ScanRight
    requires 0 <= s.threads[t].tr < |s.a| && !c.pred(s.a[s.threads[t].tr]) && HoldsRight(s.threads[t])
    requires s' == ScanRightStep(c, s, t)
    ensures SideOk(c, s', Low) && SideOk(c, s', High)
    ensures ThreadOk(c, s', s'.threads[t])
  {
    hide Phases, Table, Opening, Lawful, Aligned;
    assert ThreadOk(c, s, s.threads[t]);
    NothingReserved(c, s, t);
    SamePlaceLow(c, s, s', t);
    PassSide(c, s, s', t, High);
  }

  lemma ScanRightKeeps<T>(c: Round<T>, s: State<T>, t: int)
    requires Running(c, s) && !SomeDone(s) && 0 <= t < |s.threads| && s.threads[t].pc == ScanRight
    ensures 0 <= s.threads[t].tr < |s.a| && Inv(c, ScanRightStep(c, s, t))
  {
    hide Running, Inv, SideOk, Table, Phases, Opening;
    Parts(c, s);
    var s' := ScanRightStep(c, s, t);
    if !c.pred(s.a[s.threads[t].tr]) && HoldsRight(s.threads[t]) {
      OpeningOver(c, s, t);
      ScanRightPass(c, s, s', t);
      OthersStay(c, s, s', t);
      LoopStep(c, s, s', t);
    } else {
      MoveOn(c, s, s', t);
    }
  }

  /** An exchange keeps the contents of the array. */
  lemma SwappedBag<T>(a: seq<T>, i: int, j: int)
    requires 0 <= i < |a| && 0 <= j < |a|
    ensures multiset(Swapped(a, i, j)) == multiset(a)
    ensures |Swapped(a, i, j)| == |a|
    ensures forall k :: 0 <= k < |a| && k != i && k != j ==> Swapped(a, i, j)[k] == a[k]
    ensures Swapped(a, i, j)[i] == a[j] && Swapped(a, i, j)[j] == a[i]
  {
  }

  /** Two threads in the loop never work on the same cell. */
  lemma OthersElsewhere<T>(c: Round<T>, s: State<T>, t: int, u: int)
    requires SideOk(c, s, Low) && SideOk(c, s, High) && s.left <= s.right + 1
    requires 0 <= t < |s.threads| && 0 <= u < |s.threads| && t != u
    requires HoldsLeft(s.threads[t]) && HoldsRight(s.threads[t])
    ensures HoldsLeft(s.threads[u]) ==> s.threads[u].tl != s.threads[t].tl && s.threads[u].tl != s.threads[t].tr
    ensures HoldsRight(s.threads[u]) ==> s.threads[u].tr != s.threads[t].tl && s.threads[u].tr != s.threads[t].tr
  {
    ChunkFacts(c, s, t);
    ChunkFacts(c, s, u);
    var v, w := SideOf(c, s, Low), SideOf(c, s, High);
    assert HeldAt(v, t) && HeldAt(w, t);
    if HoldsLeft(s.threads[u]) {
      assert HeldAt(v, u);
      assert Apart(v, t, u);
    }
    if HoldsRight(s.threads[u]) {
      assert HeldAt(w, u);
      assert Apart(w, t, u);
    }
  }

  lemma GoodAt<T>(c: Round<T>, a: seq<T>, d: End, i: int)
    requires 0 <= i < |a|
    ensures GoodCells(c, a, d)[Mirror(|a|, d, i)] == (if d == Low then c.pred(a[i]) else !c.pred(a[i]))
  {
  }

  lemma ExchangeSide<T>(c: Round<T>, s: State<T>, s': State<T>, t: int, d: End)
    requires SideOk(c, s, Low) && SideOk(c, s, High) && Unreserved(SideOf(c, s, d))
    requires |s.a| == c.n && s.left <= s.right + 1
    requires 0 <= t < |s.threads|
    requires HoldsLeft(s.threads[t]) && HoldsRight(s.threads[t])
    requires 0 <= s.threads[t].tl < |s.a| && 0 <= s.threads[t].tr < |s.a|
    requires c.pred(s.a[s.threads[t].tr]) && !c.pred(s.a[s.threads[t].tl])
    requires s' == ExchangeStep(c, s, t)
    ensures SideOk(c, s', d)
  {
    hide Lawful, Aligned, SpotLaw, Lanes, GoodCells, Swapped;
    ChunkFacts(c, s, t);
    SwappedBag(s.a, s.threads[t].tl, s.threads[t].tr);
    SwapGood(c, s.a, s'.a, d, s.threads[t].tl, s.threads[t].tr);
    GoodAt(c, s.a, d, if d == Low then s.threads[t].tr else s.threads[t].tl);
    PassSide(c, s, s', t, d);
  }

  lemma ExchangeThreads<T>(c: Round<T>, s: State<T>, s': State<T>, t: int)
    requires Running(c, s) && 0 <= t < |s.threads| && s.threads[t].pc == Exchange
    requires HoldsLeft(s.threads[t]) && HoldsRight(s.threads[t])
    requires 0 <= s.threads[t].tl < |s.a| && 0 <= s.threads[t].tr < |s.a|
    requires s' == ExchangeStep(c, s, t)
    ensures forall u :: 0 <= u < |s'.threads| ==> ThreadOk(c, s', s'.threads[u])
  {
    hide Running, Table, Phases, Opening, Lawful, Aligned;
    Parts(c, s);
    ChunkFacts(c, s, t);
    SwappedBag(s.a, s.threads[t].tl, s.threads[t].tr);
    forall u | 0 <= u < |s'.threads|
      ensures ThreadOk(c, s', s'.threads[u])
    {
      if u != t {
        OthersElsewhere(c, s, t, u);
        StableThread(c, s, s', s.threads[u]);
      } else {
        assert ThreadOk(c, s, s.threads[t]);
      }
    }
  }

  lemma ExchangeKeeps<T>(c: Round<T>, s: State<T>, t: int)
    requires Running(c, s) && !SomeDone(s) && 0 <= t < |s.threads| && s.threads[t].pc == Exchange
    ensures ExchangeSafe(s, s.threads[t]) && Inv(c, ExchangeStep(c, s, t))
  {
    hide Running, Inv, SideOk, Table, Phases, Opening;
    Parts(c, s);
    var th := s.threads[t];
    var s' := ExchangeStep(c, s, t);
    if HoldsLeft(th) && HoldsRight(th) {
      OpeningOver(c, s, t);
      SwappedBag(s.a, th.tl, th.tr);
      NothingReserved(c, s, t);
      ExchangeSide(c, s, s', t, Low);
      ExchangeSide(c, s, s', t, High);
      ExchangeThreads(c, s, s', t);
      LoopStep(c, s, s', t);
    } else {
      MoveOn(c, s, s', t);
    }
  }

  lemma TestKeeps<T>(c: Round<T>, s: State<T>, t: int)
    requires Running(c, s) && !SomeDone(s) && 0 <= t < |s.threads| && s.threads[t].pc == Test
    ensures Inv(c, TestStep(s, t))
  {
    hide Running, Inv, SideOk, Table, Opening, Phases;
    AtPoint(c, s, t);
    Parts(c, s);
    ChunkFacts(c, s, t);
    MoveOn(c, s, TestStep(s, t), t);
  }

  // ----- announcing leftovers -----

  lemma AnnounceTable<T>(c: Round<T>, s: State<T>, s': State<T>, t: int, d: End)
    requires Running(c, s) && 0 <= t < |s.threads| && Rank(s.threads[t].pc) < 3
    requires |s'.threads| == |s.threads| && s'.threads == s.threads[t := s'.threads[t]]
    requires !CountedAt(s, d, t)
    requires Leftover(s', d) == Leftover(s, d) + (if CountedAt(s', d, t) then 1 else 0)
    requires Reserved(s', d) == Reserved(s, d) && s'.singleDone == s.singleDone
    ensures Table(c, s', d)
  {
    NothingReserved(c, s, t);
    if CountedAt(s', d, t) {
      AddCounted(s, s', t, d);
    } else {
      KeepCounted(s, s', t, d);
    }
  }

  lemma CountCommon<T>(c: Round<T>, s: State<T>, s': State<T>, t: int)
    requires Running(c, s) && !SomeDone(s) && 0 <= t < |s.threads| == |s'.threads|
    requires Rank(s.threads[t].pc) in {1, 2} && Rank(s'.threads[t].pc) == Rank(s.threads[t].pc) + 1
    requires s'.threads == s.threads[t := s.threads[t].(pc := s'.threads[t].pc)]
    requires s'.a == s.a && s'.left == s.left && s'.right == s.right && SameTables(s, s')
    requires s'.leftnew == s.leftnew && s'.rightnew == s.rightnew && s'.singleDone == s.singleDone
    requires Table(c, s', Low) && Table(c, s', High)
    ensures Inv(c, s')
  {
    hide Running, Inv, SideOk, Table, Phases;
    Parts(c, s);
    assert ThreadOk(c, s, s.threads[t]);
    SamePlace(c, s, s', t, Low);
    SamePlace(c, s, s', t, High);
    OthersStay(c, s, s', t);
    NotDone(s, s', t);
    OpeningOver(c, s, t);
    KeepPhases(s, s', t, s'.threads[t]);
    Whole(c, s');
  }

  lemma CountLeftKeeps<T>(c: Round<T>, s: State<T>, t: int)
    requires Running(c, s) && !SomeDone(s) && 0 <= t < |s.threads| && s.threads[t].pc == CountLeft
    ensures Inv(c, CountLeftStep(s, t))
  {
    hide Running, Inv, SideOk, Phases, Opening;
    Parts(c, s);
    var s' := CountLeftStep(s, t);
    NothingReserved(c, s, t);
    AnnounceTable(c, s, s', t, Low);
    TableKept(c, s, s', t, High);
    CountCommon(c, s, s', t);
  }

  lemma CountRightKeeps<T>(c: Round<T>, s: State<T>, t: int)
    requires Running(c, s) && !SomeDone(s) && 0 <= t < |s.threads| && s.threads[t].pc == CountRight
    ensures Inv(c, CountRightStep(s, t))
  {
    hide Running, Inv, SideOk, Phases, Opening;
    Parts(c, s);
    var s' := CountRightStep(s, t);
    NothingReserved(c, s, t);
    AnnounceTable(c, s, s', t, High);
    TableKept(c, s, s', t, Low);
    CountCommon(c, s, s', t);
  }

  // ----- barriers -----

  predicate IsBarrier(pc: PC) {
    pc.Barrier1? || pc.Barrier2? || pc.Barrier3? || pc.Barrier4?
  }

  lemma BarrierThread<T>(c: Round<T>, s: State<T>, s': State<T>, th: Thread, next: PC)
    requires ThreadOk(c, s, th) && IsBarrier(th.pc) && Rank(next) == Rank(th.pc) + 1
    requires s'.left == s.left && s'.right == s.right && s'.leftnew == s.leftnew && s'.rightnew == s.rightnew
    ensures ThreadOk(c, s', th.(pc := next))
  {
  }

  lemma BarrierKeeps<T>(c: Round<T>, s: State<T>, t: int, next: PC)
    requires Running(c, s) && !SomeDone(s) && Enabled(s, t)
    requires IsBarrier(s.threads[t].pc) && Rank(next) == Rank(s.threads[t].pc) + 1
    ensures Inv(c, BarrierStep(s, t, next))
  {
    hide SideOk, Table, Opening;
    var s' := BarrierStep(s, t, next);
    BarrierThread(c, s, s', s.threads[t], next);
    assert Behind(s, Rank(s.threads[t].pc));
    assert CountedAt(s, Low, t) <==> CountedAt(s', Low, t);
    assert CountedAt(s, High, t) <==> CountedAt(s', High, t);
    MoveOn(c, s, s', t);
  }

  // ----- the middle zone -----

  /** Right after the announcements, with no reservation made, the table law holds. */
  lemma FreshTable<T>(c: Round<T>, s: State<T>, s': State<T>, d: End)
    requires Running(c, s) && AllReached(s, 3) && !s.singleDone
    requires Leftover(s', d) == Leftover(s, d) && Reserved(s', d) == Reserved(s, d)
    requires SideOf(c, s', d) == SideOf(c, s, d)
    requires Zone(c, s', d) == SideOf(c, s, d).edge - Leftover(s, d) * c.chunk
    ensures SpotLaw(SideOf(c, s', d), Zone(c, s', d), Leftover(s', d), Reserved(s', d))
  {
    var v := SideOf(c, s, d);
    SpotStartIs(v.edge, c.chunk, Leftover(s, d) - 1);
    RangeCard(|s.threads|);
    assert forall u :: CountedAt(s, d, u) ==> InRange(u, |s.threads|);
    SubsetCard(Counted(s, d), Range(|s.threads|));
    forall u | 0 <= u < |s.threads|
      ensures v.lanes[u].spot == -1 && v.lanes[u].moved == 0
    {
      assert ThreadOk(c, s, s.threads[u]);
      assert Behind(s, Rank(s.threads[u].pc));
    }
  }

  lemma SingleKeeps<T>(c: Round<T>, s: State<T>, t: int)
    requires Running(c, s) && !SomeDone(s) && 0 <= t < |s.threads| && s.threads[t].pc == Single
    ensures Inv(c, SingleStep(c, s, t))
  {
    var s' := SingleStep(c, s, t);
    assert ThreadOk(c, s, s.threads[t]);
    assert Behind(s, Rank(s.threads[t].pc));
    if s.singleDone {
      MoveOn(c, s, s', t);
    } else {
      SingleFirst(c, s, s', t);
    }
  }

  lemma SingleFirst<T>(c: Round<T>, s: State<T>, s': State<T>, t: int)
    requires Running(c, s) && !SomeDone(s) && 0 <= t < |s.threads| && s.threads[t].pc == Single
    requires !s.singleDone && AllReached(s, 3) && s' == SingleStep(c, s, t)
    ensures Inv(c, s')
  {
    hide Running, Inv, SideOk, Table, Phases;
    Parts(c, s);
    SamePlace(c, s, s', t, Low);
    SamePlace(c, s, s', t, High);
    NotDone(s, s', t);
    OpeningOver(c, s, t);
    KeepPhases(s, s', t, s'.threads[t]);
    FreshTable(c, s, s', Low);
    FreshTable(c, s, s', High);
    KeepCounted(s, s', t, Low);
    KeepCounted(s, s', t, High);
    forall u | 0 <= u < |s'.threads|
      ensures ThreadOk(c, s', s'.threads[u])
    {
      AtPoint(c, s, u);
    }
    Whole(c, s');
  }

  // ----- reserving places -----

  /** After the single section: both tables obey the law and their zones fit. */
  lemma TablesLawful<T>(c: Round<T>, s: State<T>, d: End)
    requires Running(c, s) && s.singleDone
    ensures AllReached(s, 3)
    ensures SpotLaw(SideOf(c, s, d), Zone(c, s, d), Leftover(s, d), Reserved(s, d))
    ensures SideOf(c, s, d).base <= Zone(c, s, d)
    ensures HeldSet(SideOf(c, s, d)) == Counted(s, d)
    ensures Leftover(s, d) == |Counted(s, d)|
  {
    assert Table(c, s, d);
    ZoneFits(c, s, d);
    CountedIsHeld(c, s, d);
  }

  /** The bookkeeping of a step after the single section. */
  lemma LateBookkeeping<T>(c: Round<T>, s: State<T>, s': State<T>, t: int)
    requires Running(c, s) && !SomeDone(s) && 0 <= t < |s.threads| == |s'.threads|
    requires s.singleDone && 5 <= Rank(s.threads[t].pc) <= Rank(s'.threads[t].pc) < 14
    requires Passes(s, Rank(s.threads[t].pc), Rank(s'.threads[t].pc))
    requires s'.threads == s.threads[t := s'.threads[t]]
    requires s'.left == s.left && s'.right == s.right && SameCounters(s, s')
    requires s'.threads[t].tl == s.threads[t].tl && s'.threads[t].tlb == s.threads[t].tlb
    requires s'.threads[t].tr == s.threads[t].tr && s'.threads[t].trb == s.threads[t].trb
    requires |s'.a| == |s.a| && multiset(s'.a) == multiset(s.a)
    requires |s'.reservedLeft| == |s.reservedLeft| && |s'.reservedRight| == |s.reservedRight|
    requires LateSide(c, s', Low) && LateSide(c, s', High)
    requires ThreadOk(c, s', s'.threads[t])
    ensures Inv(c, s')
  {
    hide Running, Inv, Phases, ThreadOk, Lawful, Aligned, SpotLaw;
    Parts(c, s);
    assert Table(c, s, Low) && Table(c, s, High);
    NotDone(s, s', t);
    OpeningOver(c, s, t);
    KeepPhases(s, s', t, s'.threads[t]);
    LateAligned(c, s, s', t, Low);
    LateAligned(c, s, s', t, High);
    KeepCounted(s, s', t, Low);
    KeepCounted(s, s', t, High);
    LateThreads(c, s, s', t);
    Whole(c, s');
  }

  ghost predicate LateSide<T>(c: Round<T>, s: State<T>, d: End) {
    && Lawful(SideOf(c, s, d))
    && SpotLaw(SideOf(c, s, d), Zone(c, s, d), Leftover(s, d), Reserved(s, d))
  }

  lemma LateSides<T>(c: Round<T>, s: State<T>)
    requires Running(c, s) && s.singleDone
    ensures LateSide(c, s, Low) && LateSide(c, s, High)
  {
    hide Running, Table, Phases, Opening;
    Parts(c, s);
    TablesLawful(c, s, Low);
    TablesLawful(c, s, High);
  }

  lemma LateAligned<T>(c: Round<T>, s: State<T>, s': State<T>, t: int, d: End)
    requires SideOk(c, s, d) && 0 <= t < |s.threads| == |s'.threads|
    requires s'.threads == s.threads[t := s'.threads[t]]
    requires s'.left == s.left && s'.right == s.right
    requires s'.threads[t].tl == s.threads[t].tl && s'.threads[t].tlb == s.threads[t].tlb
    requires s'.threads[t].tr == s.threads[t].tr && s'.threads[t].trb == s.threads[t].trb
    ensures Aligned(SideOf(c, s', d))
  {
    LanesUpdate(c, s, s', t, d);
    KeepAligned(SideOf(c, s, d), SideOf(c, s', d));
  }

  lemma LateThreads<T>(c: Round<T>, s: State<T>, s': State<T>, t: int)
    requires Running(c, s) && 0 <= t < |s.threads| == |s'.threads| && s.singleDone
    requires s'.threads == s.threads[t := s'.threads[t]]
    requires s'.left == s.left && s'.right == s.right && s'.leftnew == s.leftnew && s'.rightnew == s.rightnew
    requires |s'.a| == |s.a| && AllReached(s, 3)
    requires ThreadOk(c, s', s'.threads[t])
    ensures forall u :: 0 <= u < |s'.threads| ==> ThreadOk(c, s', s'.threads[u])
  {
    forall u | 0 <= u < |s'.threads|
      ensures ThreadOk(c, s', s'.threads[u])
    {
      if u != t {
        assert Rank(s.threads[u].pc) >= 3;
        StableThread(c, s, s', s.threads[u]);
      }
    }
  }

  /** The reservation that a chunk already in place makes is in range and names its own place. */
  lemma OwnPlace<T>(c: Round<T>, s: State<T>, t: int, d: End, r: int)
    requires SideOk(c, s, d) && LateSide(c, s, d) && HeldAt(SideOf(c, s, d), t)
    requires LaneOf(c, s.threads[t], d).end >= Zone(c, s, d)
    requires r == (SideOf(c, s, d).edge - LaneOf(c, s.threads[t], d).end - 1) / c.chunk
    ensures 0 <= r < Leftover(s, d) <= |Reserved(s, d)|
    ensures SpotStart(SideOf(c, s, d).edge, c.chunk, r) == Begin(SideOf(c, s, d), LaneOf(c, s.threads[t], d))
  {
    var v := SideOf(c, s, d);
    assert Placed(v, v.lanes[t]);
    InPlaceSpot(v.edge, c.chunk, Zone(c, s, d), Leftover(s, d), v.lanes[t].end);
  }

  /** While some thread is still reserving, a chunk that must move has not reserved its spot. */
  lemma NotMovedYet<T>(c: Round<T>, s: State<T>, t: int, d: End, u: int)
    requires Running(c, s) && 0 <= t < |s.threads| && s.threads[t].pc == Reserve
    ensures Lawful(SideOf(c, s, d))
    ensures 0 <= u < |s.threads| && LaneOf(c, s.threads[u], d).end < Zone(c, s, d) && HeldAt(SideOf(c, s, d), u) ==>
              LaneOf(c, s.threads[u], d).spot == -1
  {
    hide Opening, Table, Lawful, Aligned;
    if 0 <= u < |s.threads| {
      assert ThreadOk(c, s, s.threads[u]);
      assert Behind(s, Rank(s.threads[u].pc));
    }
  }

  lemma OwnPlaceAlone(v: Side, zone: int, total: int, reserved: seq<bool>, t: int, u: int, r: int)
    requires Lawful(v) && SpotLaw(v, zone, total, reserved) && HeldAt(v, t) && v.lanes[t].spot == -1 && 0 <= r
    requires SpotStart(v.edge, v.chunk, r) == Begin(v, v.lanes[t])
    requires HeldAt(v, u) && v.lanes[u].end < zone ==> v.lanes[u].spot == -1
    ensures !OwnsSpot(v, u, r)
  {
    if HeldAt(v, u) && u != t {
      assert Apart(v, t, u);
    }
  }

  /** ... and nobody else owns it: two aligned chunks with the same place are the same chunk, and
      chunks that are not in place have not reserved yet. */
  lemma OwnPlaceFree<T>(c: Round<T>, s: State<T>, t: int, d: End, r: int, u: int)
    requires Running(c, s) && s.singleDone && 0 <= t < |s.threads|
    requires s.threads[t].pc == Reserve && HeldAt(SideOf(c, s, d), t) && s.threads[t].spot == -1
    requires SpotStart(SideOf(c, s, d).edge, c.chunk, r) == Begin(SideOf(c, s, d), LaneOf(c, s.threads[t], d))
    requires 0 <= r
    ensures !OwnsSpot(SideOf(c, s, d), u, r)
  {
    NotMovedYet(c, s, t, d, u);
    TablesLawful(c, s, d);
    hide Running;
    OwnPlaceAlone(SideOf(c, s, d), Zone(c, s, d), Leftover(s, d), Reserved(s, d), t, u, r);
  }

  /** Reserving shows on the side of the chunk as one new mark ... */
  lemma ReserveSide<T>(c: Round<T>, s: State<T>, s': State<T>, t: int, d: End, r: int)
    requires LateSide(c, s, d) && 0 <= t < |s.threads| == |s'.threads|
    requires HeldAt(SideOf(c, s, d), t) && s.threads[t].spot == -1
    requires 0 <= r < Leftover(s, d) <= |Reserved(s, d)|
    requires forall u :: !OwnsSpot(SideOf(c, s, d), u, r)
    requires s'.threads == s.threads[t := s'.threads[t]]
    requires s'.a == s.a && s'.left == s.left && s'.right == s.right
    requires Zone(c, s', d) == Zone(c, s, d) && Leftover(s', d) == Leftover(s, d)
    requires Reserved(s', d) == Reserved(s, d)[r := true]
    requires var l, l' := LaneOf(c, s.threads[t], d), LaneOf(c, s'.threads[t], d);
             && l' == l.(spot := r, target := l'.target)
             && (l.end >= Zone(c, s, d) ==> Begin(SideOf(c, s, d), l) == SpotStart(SideOf(c, s, d).edge, c.chunk, r))
             && (l.end < Zone(c, s, d) ==> l'.target == SpotStart(SideOf(c, s, d).edge, c.chunk, r))
    ensures LateSide(c, s', d)
  {
    LanesUpdate(c, s, s', t, d);
    ReserveKeeps(SideOf(c, s, d), SideOf(c, s', d), t, Zone(c, s, d), r, Leftover(s, d), Reserved(s, d), Reserved(s', d));
  }

  /** ... and not at all on a side where the thread holds nothing. */
  lemma IdleSide<T>(c: Round<T>, s: State<T>, s': State<T>, t: int, d: End)
    requires LateSide(c, s, d) && 0 <= t < |s.threads| == |s'.threads|
    requires !HeldAt(SideOf(c, s, d), t)
    requires s'.threads == s.threads[t := s'.threads[t]]
    requires s'.left == s.left && s'.right == s.right && |s'.a| == |s.a|
    requires Zone(c, s', d) == Zone(c, s, d) && Leftover(s', d) == Leftover(s, d) && Reserved(s', d) == Reserved(s, d)
    requires !Held(LaneOf(c, s'.threads[t], d))
    requires forall i :: 0 <= i < SideOf(c, s, d).edge && i < |s.a| ==> GoodCells(c, s'.a, d)[i] == GoodCells(c, s.a, d)[i]
    ensures LateSide(c, s', d)
  {
    LanesUpdate(c, s, s', t, d);
    var v, w := SideOf(c, s, d), SideOf(c, s', d);
    var m := v.(good := w.good);
    KeepLawful(v, m);
    IdleLaneKeeps(m, w, t);
    IdleSpotLaw(v, w, t, Zone(c, s, d), Leftover(s, d), Reserved(s, d));
  }

  /** A thread at its reserving step makes reservation r on the side d where it holds a chunk. */
  lemma ReserveOne<T>(c: Round<T>, s: State<T>, s': State<T>, t: int, d: End, r: int)
    requires Running(c, s) && s.singleDone && 0 <= t < |s.threads| && s.threads[t].pc == Reserve
    requires HeldAt(SideOf(c, s, d), t) && LaneOf(c, s.threads[t], d).end >= Zone(c, s, d)
    requires r == (SideOf(c, s, d).edge - LaneOf(c, s.threads[t], d).end - 1) / c.chunk
    requires 0 <= r < |Reserved(s, d)|
    requires s'.threads == s.threads[t := s.threads[t].(pc := Barrier3, spot := r)]
    requires s'.a == s.a && s'.left == s.left && s'.right == s.right
    requires Zone(c, s', d) == Zone(c, s, d) && Leftover(s', d) == Leftover(s, d)
    requires Reserved(s', d) == Reserved(s, d)[r := true]
    ensures LateSide(c, s', d)
  {
    TablesLawful(c, s, d);
    assert ThreadOk(c, s, s.threads[t]);
    OwnPlace(c, s, t, d, r);
    forall u
      ensures !OwnsSpot(SideOf(c, s, d), u, r)
    {
      OwnPlaceFree(c, s, t, d, r, u);
    }
    ReserveSide(c, s, s', t, d, r);
  }

  lemma ReserveIsSafe<T>(c: Round<T>, s: State<T>, t: int)
    requires Running(c, s) && 0 <= t < |s.threads| && s.threads[t].pc == Reserve
    ensures s.singleDone && ReserveSafe(c, s, s.threads[t])
    ensures LateSide(c, s, Low) && LateSide(c, s, High)
  {
    hide Running, SideOk, Table, Phases, Opening, LateSide;
    Parts(c, s);
    AtPoint(c, s, t);
    LateSides(c, s);
    var th := s.threads[t];
    if HoldsLeft(th) && th.tlb >= s.leftnew {
      assert s.left - (th.tlb + 1) == s.left - th.tlb - 1;
      OwnPlace(c, s, t, Low, (s.left - (th.tlb + 1)) / c.chunk);
    }
    if HoldsRight(th) && th.trb <= s.rightnew {
      assert (th.trb - 1) - s.right == (c.n - 1 - s.right) - (c.n - 1 - th.trb) - 1;
      OwnPlace(c, s, t, High, ((th.trb - 1) - s.right) / c.chunk);
    }
  }

  lemma ReserveLow<T>(c: Round<T>, s: State<T>, s': State<T>, t: int)
    requires Running(c, s) && s.singleDone && 0 <= t < |s.threads| && s.threads[t].pc == Reserve
    requires ReserveSafe(c, s, s.threads[t]) && s' == ReserveStep(c, s, t)
    requires HoldsLeft(s.threads[t]) && s.threads[t].tlb >= s.leftnew
    ensures LateSide(c, s', Low) && LateSide(c, s', High)
  {
    hide Phases, Opening, Lawful, Aligned, SpotLaw;
    assert ThreadOk(c, s, s.threads[t]);
    ReserveOne(c, s, s', t, Low, (s.left - (s.threads[t].tlb + 1)) / c.chunk);
    IdleSide(c, s, s', t, High);
  }

  lemma ReserveHigh<T>(c: Round<T>, s: State<T>, s': State<T>, t: int)
    requires Running(c, s) && s.singleDone && 0 <= t < |s.threads| && s.threads[t].pc == Reserve
    requires ReserveSafe(c, s, s.threads[t]) && s' == ReserveStep(c, s, t)
    requires HoldsRight(s.threads[t]) && s.threads[t].trb <= s.rightnew
    ensures LateSide(c, s', Low) && LateSide(c, s', High)
  {
    hide Phases, Opening, Lawful, Aligned, SpotLaw;
    assert ThreadOk(c, s, s.threads[t]);
    assert (s.threads[t].trb - 1) - s.right == (c.n - 1 - s.right) - (c.n - 1 - s.threads[t].trb) - 1;
    ReserveOne(c, s, s', t, High, ((s.threads[t].trb - 1) - s.right) / c.chunk);
    IdleSide(c, s, s', t, Low);
  }

  lemma ReserveTakes<T>(c: Round<T>, s: State<T>, s': State<T>, t: int)
    requires Running(c, s) && s.singleDone && 0 <= t < |s.threads| && s.threads[t].pc == Reserve
    requires ReserveSafe(c, s, s.threads[t]) && s' == ReserveStep(c, s, t)
    requires (HoldsLeft(s.threads[t]) && s.threads[t].tlb >= s.leftnew)
          || (HoldsRight(s.threads[t]) && s.threads[t].trb <= s.rightnew)
    ensures LateSide(c, s', Low) && LateSide(c, s', High)
  {
    if HoldsLeft(s.threads[t]) && s.threads[t].tlb >= s.leftnew {
      ReserveLow(c, s, s', t);
    } else {
      ReserveHigh(c, s, s', t);
    }
  }

  lemma ReserveThread<T>(c: Round<T>, s: State<T>, t: int)
    requires 0 <= t < |s.threads| && ThreadOk(c, s, s.threads[t]) && s.threads[t].pc == Reserve
    requires ReserveSafe(c, s, s.threads[t])
    ensures var s' := ReserveStep(c, s, t);
            && ThreadOk(c, s', s'.threads[t])
            && s'.threads == s.threads[t := s'.threads[t]]
            && s'.threads[t].pc == Barrier3
            && s'.threads[t].(pc := Reserve, spot := -1) == s.threads[t]
            && s'.a == s.a && s'.left == s.left && s'.right == s.right && SameCounters(s, s')
            && |s'.reservedLeft| == |s.reservedLeft| && |s'.reservedRight| == |s.reservedRight|
  {
  }

  lemma ReserveStepKeeps<T>(c: Round<T>, s: State<T>, t: int)
    requires Running(c, s) && !SomeDone(s) && 0 <= t < |s.threads| && s.threads[t].pc == Reserve
    ensures ReserveSafe(c, s, s.threads[t]) && Inv(c, ReserveStep(c, s, t))
  {
    hide SideOk, Table, Opening, Phases, Inv, LateSide;
    ReserveIsSafe(c, s, t);
    ReserveThread(c, s, t);
    var s' := ReserveStep(c, s, t);
    if (HoldsLeft(s.threads[t]) && s.threads[t].tlb >= s.leftnew)
       || (HoldsRight(s.threads[t]) && s.threads[t].trb <= s.rightnew) {
      ReserveTakes(c, s, s', t);
      LateBookkeeping(c, s, s', t);
    } else {
      MoveOn(c, s, s', t);
    }
  }

  // ----- finding spots and exchanging chunks -----

  /** Past the third barrier every chunk in place has reserved its spot. */
  lemma AllInPlaceReserved<T>(c: Round<T>, s: State<T>, t: int, d: End)
    requires Running(c, s) && 0 <= t < |s.threads| && Rank(s.threads[t].pc) > 7
    ensures s.singleDone && LateSide(c, s, d) && InPlaceReserved(SideOf(c, s, d), Zone(c, s, d))
    ensures SideOf(c, s, d).base <= Zone(c, s, d)
  {
    assert Behind(s, Rank(s.threads[t].pc));
    TablesLawful(c, s, d);
    var v := SideOf(c, s, d);
    forall u | HeldAt(v, u) && v.lanes[u].end >= Zone(c, s, d)
      ensures v.lanes[u].spot >= 0
    {
      assert ThreadOk(c, s, s.threads[u]);
      assert Rank(s.threads[u].pc) >= 7;
    }
  }

  /** The search of the reservation table succeeds. */
  lemma SpotFound<T>(c: Round<T>, s: State<T>, t: int, d: End)
    requires Running(c, s) && s.singleDone && 0 <= t < |s.threads|
    requires HeldAt(SideOf(c, s, d), t) && s.threads[t].spot == -1
    ensures 0 <= Leftover(s, d) <= |Reserved(s, d)|
    ensures FirstFree(Reserved(s, d), Leftover(s, d)) >= 0
    ensures forall u :: !OwnsSpot(SideOf(c, s, d), u, FirstFree(Reserved(s, d), Leftover(s, d)))
  {
    TablesLawful(c, s, d);
    var v := SideOf(c, s, d);
    SpotExists(v, t, Zone(c, s, d), Leftover(s, d), Reserved(s, d));
    var r := FirstFree(Reserved(s, d), Leftover(s, d));
    forall u
      ensures !OwnsSpot(v, u, r)
    {
      if OwnsSpot(v, u, r) {
        assert false;
      }
    }
  }

  /** Taking spot r for a chunk of side d, whose destination cells are those of that spot. */
  lemma TakeSpot<T>(c: Round<T>, s: State<T>, s': State<T>, t: int, d: End, r: int)
    requires LateSide(c, s, d) && 0 <= t < |s.threads| == |s'.threads|
    requires HeldAt(SideOf(c, s, d), t) && s.threads[t].spot == -1
    requires LaneOf(c, s.threads[t], d).end < Zone(c, s, d)
    requires 0 <= r < Leftover(s, d) <= |Reserved(s, d)|
    requires forall u :: !OwnsSpot(SideOf(c, s, d), u, r)
    requires s'.threads == s.threads[t := s'.threads[t]]
    requires s'.a == s.a && s'.left == s.left && s'.right == s.right
    requires Zone(c, s', d) == Zone(c, s, d) && Leftover(s', d) == Leftover(s, d)
    requires Reserved(s', d) == Reserved(s, d)[r := true]
    requires LaneOf(c, s'.threads[t], d) ==
             LaneOf(c, s.threads[t], d).(spot := r, target := SideOf(c, s, d).edge - (r + 1) * c.chunk)
    ensures LateSide(c, s', d)
  {
    SpotStartIs(SideOf(c, s, d).edge, c.chunk, r);
    ReserveSide(c, s, s', t, d, r);
  }

  lemma FindLeftTakes<T>(c: Round<T>, s: State<T>, t: int)
    requires LateSide(c, s, Low) && LateSide(c, s, High)
    requires 0 <= t < |s.threads| && s.threads[t].pc == FindLeft && MovesLeft(s, s.threads[t])
    requires FindLeftSafe(s, s.threads[t])
    requires ThreadOk(c, s, s.threads[t])
    requires forall u :: !OwnsSpot(SideOf(c, s, Low), u, FirstFree(s.reservedLeft, s.leftoverLeft))
    ensures var s' := FindLeftStep(c, s, t);
            LateSide(c, s', Low) && LateSide(c, s', High) && ThreadOk(c, s', s'.threads[t])
  {
    var s' := FindLeftStep(c, s, t);
    TakeSpot(c, s, s', t, Low, FirstFree(s.reservedLeft, s.leftoverLeft));
    IdleSide(c, s, s', t, High);
  }

  lemma FindRightTakes<T>(c: Round<T>, s: State<T>, t: int)
    requires LateSide(c, s, Low) && LateSide(c, s, High)
    requires 0 <= t < |s.threads| && s.threads[t].pc == FindRight && MovesRight(s, s.threads[t])
    requires FindRightSafe(s, s.threads[t])
    requires ThreadOk(c, s, s.threads[t])
    requires forall u :: !OwnsSpot(SideOf(c, s, High), u, FirstFree(s.reservedRight, s.leftoverRight))
    ensures var s' := FindRightStep(c, s, t);
            LateSide(c, s', Low) && LateSide(c, s', High) && ThreadOk(c, s', s'.threads[t])
  {
    var s' := FindRightStep(c, s, t);
    var r := FirstFree(s.reservedRight, s.leftoverRight);
    assert (r + 1) * c.chunk == r * c.chunk + c.chunk;
    TakeSpot(c, s, s', t, High, r);
    IdleSide(c, s, s', t, Low);
  }

  lemma FindLeftKeeps<T>(c: Round<T>, s: State<T>, t: int)
    requires Running(c, s) && !SomeDone(s) && 0 <= t < |s.threads| && s.threads[t].pc == FindLeft
    ensures FindLeftSafe(s, s.threads[t]) && Inv(c, FindLeftStep(c, s, t))
  {
    hide Running, Inv, SideOk, Table, Opening, Phases, LateSide;
    AtPoint(c, s, t);
    if MovesLeft(s, s.threads[t]) {
      SpotFound(c, s, t, Low);
      LateSides(c, s);
      FindLeftTakes(c, s, t);
      LateBookkeeping(c, s, FindLeftStep(c, s, t), t);
    } else {
      FindPasses(c, s, t, FindRight);
    }
  }

  lemma FindRightKeeps<T>(c: Round<T>, s: State<T>, t: int)
    requires Running(c, s) && !SomeDone(s) && 0 <= t < |s.threads| && s.threads[t].pc == FindRight
    ensures FindRightSafe(s, s.threads[t]) && Inv(c, FindRightStep(c, s, t))
  {
    hide Running, Inv, SideOk, Table, Opening, Phases, LateSide;
    AtPoint(c, s, t);
    if MovesRight(s, s.threads[t]) {
      SpotFound(c, s, t, High);
      LateSides(c, s);
      FindRightTakes(c, s, t);
      LateBookkeeping(c, s, FindRightStep(c, s, t), t);
    } else {
      FindPasses(c, s, t, Barrier4);
    }
  }

  /** A thread with nothing (left) to move goes on. */
  lemma FindPasses<T>(c: Round<T>, s: State<T>, t: int, next: PC)
    requires Running(c, s) && !SomeDone(s) && 0 <= t < |s.threads|
    requires Rank(s.threads[t].pc) in {8, 9, 10, 11} && next in {FindRight, Barrier4}
    requires next == FindRight ==> Rank(s.threads[t].pc) < 10
    requires next == Barrier4 ==> Rank(s.threads[t].pc) >= 10
    requires s.threads[t].pc == FindLeft ==> !MovesLeft(s, s.threads[t])
    requires s.threads[t].pc == FindRight ==> !MovesRight(s, s.threads[t])
    requires Rank(s.threads[t].pc) in {9, 11} ==> s.threads[t].k == c.chunk
    ensures Inv(c, Put(s, t, s.threads[t].(pc := next)))
  {
    hide Running, Inv, SideOk, Table, Opening, Phases;
    AtPoint(c, s, t);
    MoveOn(c, s, Put(s, t, s.threads[t].(pc := next)), t);
  }

  /** A side past the third barrier. */
  ghost predicate MovingSide<T>(c: Round<T>, s: State<T>, d: End) {
    && LateSide(c, s, d)
    && InPlaceReserved(SideOf(c, s, d), Zone(c, s, d))
    && SideOf(c, s, d).base <= Zone(c, s, d)
  }

  /** Where the next exchange of thread t takes place, on side d. */
  lemma SwapPlace<T>(c: Round<T>, s: State<T>, t: int, d: End)
    requires MovingSide(c, s, d) && 0 <= t < |s.threads|
    requires HeldAt(SideOf(c, s, d), t) && LaneOf(c, s.threads[t], d).end < Zone(c, s, d)
    requires s.threads[t].spot >= 0 && s.threads[t].k < c.chunk
    ensures var v, l := SideOf(c, s, d), LaneOf(c, s.threads[t], d);
            var off := NextOffset(v, l.moved);
            && 0 <= off < c.chunk
            && v.base <= Begin(v, l) + off < v.edge
            && v.base <= l.target + off < v.edge
  {
    DestinationGood(SideOf(c, s, d), t, Zone(c, s, d), Leftover(s, d), Reserved(s, d));
  }

  lemma SwapSide<T>(c: Round<T>, s: State<T>, s': State<T>, t: int, d: End)
    requires MovingSide(c, s, d) && 0 <= t < |s.threads| == |s'.threads|
    requires HeldAt(SideOf(c, s, d), t) && LaneOf(c, s.threads[t], d).end < Zone(c, s, d)
    requires s.threads[t].spot >= 0 && s.threads[t].k < c.chunk
    requires s'.left == s.left && s'.right == s.right
    requires MovesOne(SideOf(c, s, d), SideOf(c, s', d), t)
    requires Zone(c, s', d) == Zone(c, s, d) && Leftover(s', d) == Leftover(s, d) && Reserved(s', d) == Reserved(s, d)
    ensures LateSide(c, s', d)
  {
    MoveKeeps(SideOf(c, s, d), SideOf(c, s', d), t, Zone(c, s, d), Leftover(s, d), Reserved(s, d));
  }

  lemma MovingSides<T>(c: Round<T>, s: State<T>, t: int)
    requires Running(c, s) && 0 <= t < |s.threads| && Rank(s.threads[t].pc) > 7
    ensures s.singleDone && MovingSide(c, s, Low) && MovingSide(c, s, High) && ThreadOk(c, s, s.threads[t])
  {
    AllInPlaceReserved(c, s, t, Low);
    AllInPlaceReserved(c, s, t, High);
  }

  function Mirror(n: int, d: End, i: int): int {
    if d == Low then i else n - 1 - i
  }

  lemma SwapGood<T>(c: Round<T>, a: seq<T>, b: seq<T>, d: End, i: int, j: int)
    requires 0 <= i < |a| && 0 <= j < |a| && b == Swapped(a, i, j)
    ensures var g, h := GoodCells(c, a, d), GoodCells(c, b, d);
            var x, y := Mirror(|a|, d, i), Mirror(|a|, d, j);
            && |g| == |h| == |a|
            && h[x] == g[y] && h[y] == g[x]
            && forall k :: 0 <= k < |a| && k != x && k != y ==> h[k] == g[k]
  {
    SwappedBag(a, i, j);
    var g, h := GoodCells(c, a, d), GoodCells(c, b, d);
    forall k | 0 <= k < |a| && k != Mirror(|a|, d, i) && k != Mirror(|a|, d, j)
      ensures h[k] == g[k]
    {
      assert b[Mirror(|a|, d, k)] == a[Mirror(|a|, d, k)];
    }
  }

  /** In the coordinates of side d, an exchange of array cells i and j moves one cell of a chunk. */
  lemma SwapIsMove<T>(c: Round<T>, s: State<T>, s': State<T>, t: int, d: End, i: int, j: int)
    requires HeldAt(SideOf(c, s, d), t) && 0 <= t < |s.threads| && SideOf(c, s, d).edge <= |s.a| == c.n
    requires 0 <= i < |s.a| && 0 <= j < |s.a| && s'.a == Swapped(s.a, i, j)
    requires s'.left == s.left && s'.right == s.right
    requires s'.threads == s.threads[t := s.threads[t].(k := s.threads[t].k + 1)]
    requires var off := NextOffset(SideOf(c, s, d), s.threads[t].k);
             var l := LaneOf(c, s.threads[t], d);
             && Begin(SideOf(c, s, d), l) + off == Mirror(c.n, d, i)
             && l.target + off == Mirror(c.n, d, j)
    ensures MovesOne(SideOf(c, s, d), SideOf(c, s', d), t)
  {
    hide GoodCells, Lanes, NextOffset;
    SwappedBag(s.a, i, j);
    LanesUpdate(c, s, s', t, d);
    SwapGood(c, s.a, s'.a, d, i, j);
    var v, w := SideOf(c, s, d), SideOf(c, s', d);
    assert w.lanes == v.lanes[t := v.lanes[t].(moved := v.lanes[t].moved + 1)];
    assert w == v.(good := w.good, lanes := w.lanes);
  }

  lemma SwapThread<T>(c: Round<T>, s: State<T>, s': State<T>, th: Thread)
    requires ThreadOk(c, s, th) && th.k < c.chunk && (th.pc == SwapLeft || th.pc == SwapRight)
    requires s'.left == s.left && s'.right == s.right && s'.leftnew == s.leftnew && s'.rightnew == s.rightnew
    ensures ThreadOk(c, s', th.(k := th.k + 1))
  {
  }

  /** An exchange on one side is out of sight of the other. */
  lemma SwapElsewhere<T>(c: Round<T>, s: State<T>, s': State<T>, t: int, d: End, i: int, j: int)
    requires LateSide(c, s, d) && 0 <= t < |s.threads| == |s'.threads| && |s.a| == c.n
    requires 0 <= i < |s.a| && 0 <= j < |s.a| && s'.a == Swapped(s.a, i, j)
    requires s.left <= s.right + 1
    requires if d == Low then s.right < i && s.right < j else i < s.left && j < s.left
    requires !HeldAt(SideOf(c, s, d), t) && !Held(LaneOf(c, s'.threads[t], d))
    requires s'.threads == s.threads[t := s'.threads[t]]
    requires s'.left == s.left && s'.right == s.right
    requires Zone(c, s', d) == Zone(c, s, d) && Leftover(s', d) == Leftover(s, d) && Reserved(s', d) == Reserved(s, d)
    ensures LateSide(c, s', d)
  {
    SwappedBag(s.a, i, j);
    IdleSide(c, s, s', t, d);
  }

  /** One exchange of a moving thread, on side d with the other side o. */
  lemma SwapSides<T>(c: Round<T>, s: State<T>, s': State<T>, t: int, d: End, o: End, i: int, j: int)
    requires MovingSide(c, s, d) && LateSide(c, s, o) && o != d
    requires 0 <= t < |s.threads| && |s.a| == c.n && s.left <= s.right + 1
    requires HeldAt(SideOf(c, s, d), t) && !HeldAt(SideOf(c, s, o), t)
    requires LaneOf(c, s.threads[t], d).end < Zone(c, s, d)
    requires s.threads[t].spot >= 0 && s.threads[t].k < c.chunk
    requires 0 <= i < |s.a| && 0 <= j < |s.a| && s'.a == Swapped(s.a, i, j)
    requires s'.threads == s.threads[t := s.threads[t].(k := s.threads[t].k + 1)]
    requires s'.left == s.left && s'.right == s.right && SameCounters(s, s') && SameTables(s, s')
    requires if o == Low then s.right < i && s.right < j else i < s.left && j < s.left
    requires var off := NextOffset(SideOf(c, s, d), s.threads[t].k);
             var l := LaneOf(c, s.threads[t], d);
             && Begin(SideOf(c, s, d), l) + off == Mirror(c.n, d, i)
             && l.target + off == Mirror(c.n, d, j)
    ensures LateSide(c, s', d) && LateSide(c, s', o)
  {
    SwapIsMove(c, s, s', t, d, i, j);
    SwapSide(c, s, s', t, d);
    SwapElsewhere(c, s, s', t, o, i, j);
  }

  lemma SwapLeftMoves<T>(c: Round<T>, s: State<T>, t: int)
    requires MovingSide(c, s, Low) && LateSide(c, s, High) && 0 <= t < |s.threads|
    requires |s.a| == c.n && c.first >= 0 && s.left <= s.right + 1 && s.right < c.n
    requires ThreadOk(c, s, s.threads[t]) && s.threads[t].pc == SwapLeft && s.threads[t].k < c.chunk
    ensures SwapLeftSafe(c, s, s.threads[t])
    ensures var s' := SwapLeftStep(c, s, t); LateSide(c, s', Low) && LateSide(c, s', High)
  {
    hide Lawful, Aligned, SpotLaw, GoodCells, Lanes, Swapped;
    var th := s.threads[t];
    SwapPlace(c, s, t, Low);
    SwapLeftEffect(c, s, SwapLeftStep(c, s, t), t);
    SwapSides(c, s, SwapLeftStep(c, s, t), t, Low, High, th.tlb - (c.chunk - 1) + th.k, th.swapstart + th.k);
  }

  lemma SwapRightMoves<T>(c: Round<T>, s: State<T>, t: int)
    requires LateSide(c, s, Low) && MovingSide(c, s, High) && 0 <= t < |s.threads|
    requires |s.a| == c.n && c.last < c.n && s.left <= s.right + 1 && s.left >= 0
    requires ThreadOk(c, s, s.threads[t]) && s.threads[t].pc == SwapRight && s.threads[t].k < c.chunk
    ensures SwapRightSafe(c, s, s.threads[t])
    ensures var s' := SwapRightStep(c, s, t); LateSide(c, s', Low) && LateSide(c, s', High)
  {
    hide Lawful, Aligned, SpotLaw, GoodCells, Lanes, Swapped;
    var th := s.threads[t];
    SwapPlace(c, s, t, High);
    SwapRightEffect(c, s, SwapRightStep(c, s, t), t);
    SwapSides(c, s, SwapRightStep(c, s, t), t, High, Low, th.trb + th.k, th.swapstart + th.k);
  }

  lemma SwapFinish<T>(c: Round<T>, s: State<T>, s': State<T>, t: int)
    requires Running(c, s) && !SomeDone(s) && 0 <= t < |s.threads| && s.singleDone
    requires s.threads[t].pc == SwapLeft || s.threads[t].pc == SwapRight
    requires s.threads[t].k < c.chunk && |s'.a| == |s.a| && multiset(s'.a) == multiset(s.a)
    requires s'.threads == s.threads[t := s.threads[t].(k := s.threads[t].k + 1)]
    requires s'.left == s.left && s'.right == s.right && SameCounters(s, s') && SameTables(s, s')
    requires LateSide(c, s', Low) && LateSide(c, s', High)
    ensures Inv(c, s')
  {
    hide Running, Inv, LateSide, Phases, SideOk, Table;
    Parts(c, s);
    assert ThreadOk(c, s, s.threads[t]);
    SwapThread(c, s, s', s.threads[t]);
    LateBookkeeping(c, s, s', t);
  }

  lemma SwapLeftLate<T>(c: Round<T>, s: State<T>, t: int)
    requires Running(c, s) && 0 <= t < |s.threads| && s.threads[t].pc == SwapLeft && s.threads[t].k < c.chunk
    ensures SwapLeftSafe(c, s, s.threads[t]) && s.singleDone
    ensures var s' := SwapLeftStep(c, s, t); LateSide(c, s', Low) && LateSide(c, s', High)
  {
    hide Running, LateSide, MovingSide;
    Parts(c, s);
    MovingSides(c, s, t);
    SwapLeftMoves(c, s, t);
  }

  lemma SwapLeftEffect<T>(c: Round<T>, s: State<T>, s': State<T>, t: int)
    requires 0 <= t < |s.threads| && SwapLeftSafe(c, s, s.threads[t]) && s.threads[t].k < c.chunk
    requires s' == SwapLeftStep(c, s, t)
    ensures var th := s.threads[t];
            && s'.a == Swapped(s.a, th.tlb - (c.chunk - 1) + th.k, th.swapstart + th.k)
            && |s'.a| == |s.a| && multiset(s'.a) == multiset(s.a)
            && s'.threads == s.threads[t := th.(k := th.k + 1)]
            && s'.left == s.left && s'.right == s.right && SameCounters(s, s') && SameTables(s, s')
  {
    hide Swapped;
    var th := s.threads[t];
    SwappedBag(s.a, th.tlb - (c.chunk - 1) + th.k, th.swapstart + th.k);
  }

  lemma SwapLeftOne<T>(c: Round<T>, s: State<T>, t: int)
    requires Running(c, s) && !SomeDone(s) && 0 <= t < |s.threads| && s.threads[t].pc == SwapLeft
    requires s.threads[t].k < c.chunk
    ensures SwapLeftSafe(c, s, s.threads[t]) && Inv(c, SwapLeftStep(c, s, t))
  {
    SwapLeftLate(c, s, t);
    SwapLeftEffect(c, s, SwapLeftStep(c, s, t), t);
    SwapFinish(c, s, SwapLeftStep(c, s, t), t);
  }

  lemma SwapLeftKeeps<T>(c: Round<T>, s: State<T>, t: int)
    requires Running(c, s) && !SomeDone(s) && 0 <= t < |s.threads| && s.threads[t].pc == SwapLeft
    ensures SwapLeftSafe(c, s, s.threads[t]) && Inv(c, SwapLeftStep(c, s, t))
  {
    hide Running, Inv, SideOk, Table, Opening, Phases;
    AtPoint(c, s, t);
    if s.threads[t].k < c.chunk {
      SwapLeftOne(c, s, t);
    } else {
      FindPasses(c, s, t, FindRight);
    }
  }

  lemma SwapRightLate<T>(c: Round<T>, s: State<T>, t: int)
    requires Running(c, s) && 0 <= t < |s.threads| && s.threads[t].pc == SwapRight && s.threads[t].k < c.chunk
    ensures SwapRightSafe(c, s, s.threads[t]) && s.singleDone
    ensures var s' := SwapRightStep(c, s, t); LateSide(c, s', Low) && LateSide(c, s', High)
  {
    hide Running, LateSide, MovingSide;
    Parts(c, s);
    MovingSides(c, s, t);
    SwapRightMoves(c, s, t);
  }

  lemma SwapRightEffect<T>(c: Round<T>, s: State<T>, s': State<T>, t: int)
    requires 0 <= t < |s.threads| && SwapRightSafe(c, s, s.threads[t]) && s.threads[t].k < c.chunk
    requires s' == SwapRightStep(c, s, t)
    ensures var th := s.threads[t];
            && s'.a == Swapped(s.a, th.trb + th.k, th.swapstart + th.k)
            && |s'.a| == |s.a| && multiset(s'.a) == multiset(s.a)
            && s'.threads == s.threads[t := th.(k := th.k + 1)]
            && s'.left == s.left && s'.right == s.right && SameCounters(s, s') && SameTables(s, s')
  {
    hide Swapped;
    var th := s.threads[t];
    SwappedBag(s.a, th.trb + th.k, th.swapstart + th.k);
  }

  lemma SwapRightOne<T>(c: Round<T>, s: State<T>, t: int)
    requires Running(c, s) && !SomeDone(s) && 0 <= t < |s.threads| && s.threads[t].pc == SwapRight
    requires s.threads[t].k < c.chunk
    ensures SwapRightSafe(c, s, s.threads[t]) && Inv(c, SwapRightStep(c, s, t))
  {
    SwapRightLate(c, s, t);
    SwapRightEffect(c, s, SwapRightStep(c, s, t), t);
    SwapFinish(c, s, SwapRightStep(c, s, t), t);
  }

  lemma SwapRightKeeps<T>(c: Round<T>, s: State<T>, t: int)
    requires Running(c, s) && !SomeDone(s) && 0 <= t < |s.threads| && s.threads[t].pc == SwapRight
    ensures SwapRightSafe(c, s, s.threads[t]) && Inv(c, SwapRightStep(c, s, t))
  {
    hide Running, Inv, SideOk, Table, Opening, Phases;
    AtPoint(c, s, t);
    if s.threads[t].k < c.chunk {
      SwapRightOne(c, s, t);
    } else {
      FindPasses(c, s, t, Barrier4);
    }
  }

  // ----- the end of a round -----

  /** At most one leftover chunk per thread: the leftovers of both sides together fit in the threads. */
  lemma OneLeftoverEach<T>(c: Round<T>, s: State<T>)
    requires Running(c, s) && AllReached(s, 3)
    ensures s.leftoverLeft + s.leftoverRight <= c.threads
    ensures s.leftoverLeft >= 0 && s.leftoverRight >= 0
  {
    var l, r := Counted(s, Low), Counted(s, High);
    RangeCard(|s.threads|);
    forall u | u in l + r
      ensures u in Range(|s.threads|) && !(u in l && u in r)
    {
      assert ThreadOk(c, s, s.threads[u]);
      assert InRange(u, |s.threads|);
    }
    assert l !! r;
    SubsetCard(l + r, Range(|s.threads|));
  }

  /** Every cell outside the middle zone is on its proper side. */
  lemma SideSettled<T>(c: Round<T>, s: State<T>, t: int, d: End)
    requires Running(c, s) && 0 <= t < |s.threads| && Rank(s.threads[t].pc) > 12
    ensures SideOf(c, s, d).base <= Zone(c, s, d) <= SideOf(c, s, d).edge
    ensures Zone(c, s, d) == SideOf(c, s, d).edge - Leftover(s, d) * c.chunk
    ensures forall i :: 0 <= i < Zone(c, s, d) ==> SideOf(c, s, d).good[i]
  {
    hide Running, Table, Opening, Phases;
    AllInPlaceReserved(c, s, t, d);
    TablesLawful(c, s, d);
    ZoneFits(c, s, d);
    AtPoint(c, s, t);
    var v := SideOf(c, s, d);
    forall u | HeldAt(v, u) && v.lanes[u].end < Zone(c, s, d)
      ensures v.lanes[u].spot >= 0 && v.lanes[u].moved == v.chunk
    {
      AtPoint(c, s, u);
      assert Rank(s.threads[u].pc) >= 12;
    }
    ChunkSide.Settled(v, Zone(c, s, d), Leftover(s, d), Reserved(s, d));
  }

  /** Fewer than chunk cells were never fetched and at most one chunk per thread is left over. */
  lemma ZoneNarrow(threads: int, chunk: int, left: int, right: int, ll: int, lr: int)
    requires 1 <= chunk && 0 <= ll && 0 <= lr && ll + lr <= threads
    requires right - left + 1 < chunk
    ensures (right + lr * chunk) - (left - ll * chunk) + 1 < (threads + 1) * chunk
    ensures ll * chunk >= 0 && lr * chunk >= 0
  {
    var spare := threads - ll - lr;
    assert (threads + 1) * chunk == ll * chunk + lr * chunk + spare * chunk + chunk;
    assert spare * chunk >= 0;
  }

  lemma RoundBounds<T>(c: Round<T>, s: State<T>, t: int)
    requires Running(c, s) && 0 <= t < |s.threads| && Rank(s.threads[t].pc) > 12
    ensures s.leftnew == s.left - s.leftoverLeft * c.chunk && s.rightnew == s.right + s.leftoverRight * c.chunk
    ensures c.first <= s.leftnew && s.rightnew <= c.last
    ensures forall d, i :: 0 <= i < Zone(c, s, d) && i < |s.a| ==> SideOf(c, s, d).good[i]
  {
    SideSettled(c, s, t, Low);
    SideSettled(c, s, t, High);
  }

  lemma RoundSettled<T>(c: Round<T>, s: State<T>, t: int)
    requires Running(c, s) && 0 <= t < |s.threads| && Rank(s.threads[t].pc) > 12
    ensures AllReached(s, 12) && ChunkRound.Settled(c, s, s.leftnew, s.rightnew)
  {
    hide SideOk, Table, Opening;
    assert Behind(s, Rank(s.threads[t].pc));
    assert ThreadOk(c, s, s.threads[t]);
    RoundBounds(c, s, t);
    OneLeftoverEach(c, s);
    OpeningOver(c, s, t);
    ZoneNarrow(c.threads, c.chunk, s.left, s.right, s.leftoverLeft, s.leftoverRight);
    CellsSettled(c, s);
  }

  lemma CellsSettled<T>(c: Round<T>, s: State<T>)
    requires |s.a| == c.n
    requires forall d, i :: 0 <= i < Zone(c, s, d) && i < |s.a| ==> SideOf(c, s, d).good[i]
    ensures forall i :: 0 <= i < s.leftnew && i < |s.a| ==> c.pred(s.a[i])
    ensures forall i :: 0 <= i && s.rightnew < i < |s.a| ==> !c.pred(s.a[i])
  {
    forall i | 0 <= i && s.rightnew < i < |s.a|
      ensures !c.pred(s.a[i])
    {
      assert SideOf(c, s, High).good[c.n - 1 - i];
    }
    forall i | 0 <= i < s.leftnew && i < |s.a|
      ensures c.pred(s.a[i])
    {
      assert SideOf(c, s, Low).good[i];
    }
  }

  lemma RunningShape<T>(c: Round<T>, s: State<T>)
    requires Running(c, s)
    ensures 1 <= c.chunk && c.threads == |s.threads|
  {
  }

  lemma PublishedShape<T>(c: Round<T>, s: State<T>)
    requires Published(c, s)
    ensures 1 <= c.chunk && c.threads == |s.threads|
    ensures AllReached(s, 12) && ChunkRound.Settled(c, s, s.leftnew, s.rightnew)
  {
  }

  /** Publishing a settled round publishes it, the first time and again. */
  lemma PublishAgain<T>(c: Round<T>, s: State<T>, t: int)
    requires 0 <= t < |s.threads| && s.threads[t].pc == Publish && 1 <= c.chunk && c.threads == |s.threads|
    requires AllReached(s, 12) && ChunkRound.Settled(c, s, s.leftnew, s.rightnew)
    ensures SomeDone(PublishStep(s, t)) && Published(c, PublishStep(s, t))
  {
    assert PublishStep(s, t).threads[t].pc == Done;
  }

  lemma PublishKeeps<T>(c: Round<T>, s: State<T>, t: int)
    requires Inv(c, s) && 0 <= t < |s.threads| && s.threads[t].pc == Publish
    ensures Inv(c, PublishStep(s, t))
  {
    hide Running, Published, ChunkRound.Settled;
    var s' := PublishStep(s, t);
    if !SomeDone(s) {
      RoundSettled(c, s, t);
      RunningShape(c, s);
    } else {
      PublishedShape(c, s);
    }
    PublishAgain(c, s, t);
  }

  lemma PublishedKeeps<T>(c: Round<T>, s: State<T>, t: int)
    requires Published(c, s) && SomeDone(s) && Enabled(s, t) && s.threads[t].pc != Publish
    ensures s.threads[t].pc == Barrier4 && Inv(c, BarrierStep(s, t, Publish))
  {
    assert Rank(s.threads[t].pc) >= 12;
    var s' := BarrierStep(s, t, Publish);
    var u :| 0 <= u < |s.threads| && s.threads[u].pc == Done;
    assert s'.threads[u].pc == Done;
    forall u | 0 <= u < |s'.threads|
      ensures Rank(s'.threads[u].pc) >= 12
    {
      assert Rank(s.threads[u].pc) >= 12;
    }
  }
}
