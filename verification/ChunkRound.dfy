/** One parallel round of mcstl_partition.h: the threads' program as a step function, so that a
    schedule (which thread moves next) determines a run, and the invariant that every step of every
    thread keeps. */
module ChunkRound {
  import opened ChunkSide

  /** The constants of a round: predicate, chunk size, number of threads, the range first..last of
      cells that are still unknown, the length of the array and its contents as a multiset. */
  datatype Round<!T(==)> = Round(pred: T -> bool, chunk: int, threads: int, first: int, last: int, n: int, bag: multiset<T>)

  /** The points at which a thread can be interrupted. */
  datatype PC =
    | Start | FetchLeft | FetchRight | Test | ScanLeft | ScanRight | Exchange
    | CountLeft | CountRight | Barrier1 | Single | Barrier2
    | Reserve | Barrier3
    | FindLeft | SwapLeft | FindRight | SwapRight | Barrier4
    | Publish | Done

  /** Private variables of a thread: thread_left and its border, thread_right and its border,
      iam_finished, the reservation index and swapstart, and the swap_ranges counter. */
  datatype Thread = Thread(pc: PC, tl: int, tlb: int, tr: int, trb: int, finished: bool,
                           spot: int, swapstart: int, k: int)

  /** The shared variables and all private ones. */
  datatype State<T> = State(a: seq<T>, left: int, right: int, leftoverLeft: int, leftoverRight: int,
                            leftnew: int, rightnew: int, singleDone: bool,
                            reservedLeft: seq<bool>, reservedRight: seq<bool>, threads: seq<Thread>)

  function Rank(pc: PC): int {
    match pc
    case CountLeft => 1
    case CountRight => 2
    case Barrier1 => 3
    case Single => 4
    case Barrier2 => 5
    case Reserve => 6
    case Barrier3 => 7
    case FindLeft => 8
    case SwapLeft => 9
    case FindRight => 10
    case SwapRight => 11
    case Barrier4 => 12
    case Publish => 13
    case Done => 14
    case _ => 0
  }

  predicate AllReached<T>(s: State<T>, rank: int) {
    forall u :: 0 <= u < |s.threads| ==> Rank(s.threads[u].pc) >= rank
  }

  function HoldsLeft(th: Thread): bool { th.tl <= th.tlb }

  function HoldsRight(th: Thread): bool { th.tr >= th.trb }

  /** A thread can move unless it is done or waits at a barrier for a thread that is still behind. */
  predicate Enabled<T>(s: State<T>, t: int) {
    && 0 <= t < |s.threads|
    && var pc := s.threads[t].pc;
       && !pc.Done?
       && (pc.Barrier1? || pc.Barrier2? || pc.Barrier3? || pc.Barrier4? ==> AllReached(s, Rank(pc)))
  }

  predicate ReserveSafe<T>(c: Round<T>, s: State<T>, th: Thread) {
    && 1 <= c.chunk
    && (HoldsLeft(th) && th.tlb >= s.leftnew ==> 0 <= (s.left - (th.tlb + 1)) / c.chunk < |s.reservedLeft|)
    && (HoldsRight(th) && th.trb <= s.rightnew ==> 0 <= ((th.trb - 1) - s.right) / c.chunk < |s.reservedRight|)
  }

  predicate FindLeftSafe<T>(s: State<T>, th: Thread) {
    HoldsLeft(th) && th.tlb < s.leftnew ==>
      0 <= s.leftoverLeft <= |s.reservedLeft| && FirstFree(s.reservedLeft, s.leftoverLeft) >= 0
  }

  predicate FindRightSafe<T>(s: State<T>, th: Thread) {
    HoldsRight(th) && th.trb > s.rightnew ==>
      0 <= s.leftoverRight <= |s.reservedRight| && FirstFree(s.reservedRight, s.leftoverRight) >= 0
  }

  predicate SwapLeftSafe<T>(c: Round<T>, s: State<T>, th: Thread) {
    th.k < c.chunk ==> 0 <= th.tlb - (c.chunk - 1) + th.k < |s.a| && 0 <= th.swapstart + th.k < |s.a|
  }

  predicate SwapRightSafe<T>(c: Round<T>, s: State<T>, th: Thread) {
    th.k < c.chunk ==> 0 <= th.trb + th.k < |s.a| && 0 <= th.swapstart + th.k < |s.a|
  }

  predicate ExchangeSafe<T>(s: State<T>, th: Thread) {
    HoldsLeft(th) && HoldsRight(th) ==> 0 <= th.tl < |s.a| && 0 <= th.tr < |s.a|
  }

  /** Every array cell and table entry the next step of thread t touches exists. */
  predicate StepSafe<T>(c: Round<T>, s: State<T>, t: int) {
    && 0 <= t < |s.threads|
    && var th := s.threads[t];
       && (th.pc.ScanLeft? ==> 0 <= th.tl < |s.a|)
       && (th.pc.ScanRight? ==> 0 <= th.tr < |s.a|)
       && (th.pc.Exchange? ==> ExchangeSafe(s, th))
       && (th.pc.Reserve? ==> ReserveSafe(c, s, th))
       && (th.pc.FindLeft? ==> FindLeftSafe(s, th))
       && (th.pc.FindRight? ==> FindRightSafe(s, th))
       && (th.pc.SwapLeft? ==> SwapLeftSafe(c, s, th))
       && (th.pc.SwapRight? ==> SwapRightSafe(c, s, th))
  }

  /** The first r < total that is not reserved, or -1. */
  function FirstFree(reserved: seq<bool>, total: int): (r: int)
    requires total <= |reserved|
    ensures -1 <= r && (r >= 0 ==> r < total && !reserved[r])
    ensures r == -1 ==> forall q :: 0 <= q < total ==> reserved[q]
  {
    FirstFreeFrom(reserved, total, 0)
  }

  function FirstFreeFrom(reserved: seq<bool>, total: int, q: nat): (r: int)
    requires total <= |reserved|
    ensures -1 <= r && (r >= 0 ==> q <= r < total && !reserved[r])
    ensures r == -1 ==> forall p :: q <= p < total ==> reserved[p]
    decreases total - q
  {
    if q >= total then -1
    else if !reserved[q] then q
    else FirstFreeFrom(reserved, total, q + 1)
  }

  function Swapped<T>(a: seq<T>, i: int, j: int): seq<T>
    requires 0 <= i < |a| && 0 <= j < |a|
  {
    a[i := a[j]][j := a[i]]
  }

  function Put<T>(s: State<T>, t: int, th: Thread): State<T>
    requires 0 <= t < |s.threads|
  {
    s.(threads := s.threads[t := th])
  }

  function StartStep<T>(c: Round<T>, s: State<T>, t: int): State<T>
    requires 0 <= t < |s.threads|
  {
    Put(s, t, s.threads[t].(pc := FetchLeft, tl := s.left + 1, tlb := s.left, tr := c.n - 1, trb := c.n))
  }

  function FetchLeftStep<T>(c: Round<T>, s: State<T>, t: int): State<T>
    requires 0 <= t < |s.threads|
  {
    var th := s.threads[t];
    if HoldsLeft(th) then
      Put(s, t, th.(pc := FetchRight))
    else if s.left + (c.chunk - 1) <= s.right then
      Put(s.(left := s.left + c.chunk), t, th.(pc := FetchRight, tl := s.left, tlb := s.left + (c.chunk - 1)))
    else
      Put(s, t, th.(pc := FetchRight, finished := true))
  }

  function FetchRightStep<T>(c: Round<T>, s: State<T>, t: int): State<T>
    requires 0 <= t < |s.threads|
  {
    var th := s.threads[t];
    if HoldsRight(th) then
      Put(s, t, th.(pc := Test))
    else if s.left <= s.right - (c.chunk - 1) then
      Put(s.(right := s.right - c.chunk), t, th.(pc := Test, tr := s.right, trb := s.right - (c.chunk - 1)))
    else
      Put(s, t, th.(pc := Test, finished := true))
  }

  function ScanLeftStep<T>(c: Round<T>, s: State<T>, t: int): State<T>
    requires 0 <= t < |s.threads| && 0 <= s.threads[t].tl < |s.a|
  {
    var th := s.threads[t];
    if c.pred(s.a[th.tl]) && HoldsLeft(th) then
      Put(s, t, th.(tl := th.tl + 1))
    else
      Put(s, t, th.(pc := ScanRight))
  }

  function ScanRightStep<T>(c: Round<T>, s: State<T>, t: int): State<T>
    requires 0 <= t < |s.threads| && 0 <= s.threads[t].tr < |s.a|
  {
    var th := s.threads[t];
    if !c.pred(s.a[th.tr]) && HoldsRight(th) then
      Put(s, t, th.(tr := th.tr - 1))
    else
      Put(s, t, th.(pc := Exchange))
  }

  function ExchangeStep<T>(c: Round<T>, s: State<T>, t: int): State<T>
    requires 0 <= t < |s.threads|
    requires ExchangeSafe(s, s.threads[t])
  {
    var th := s.threads[t];
    if !HoldsLeft(th) || !HoldsRight(th) then
      Put(s, t, th.(pc := FetchLeft))
    else
      Put(s.(a := Swapped(s.a, th.tl, th.tr)), t,
          th.(pc := LoopOrFetch(th.tl + 1, th.tr - 1), tl := th.tl + 1, tr := th.tr - 1))
  }

  function SingleStep<T>(c: Round<T>, s: State<T>, t: int): State<T>
    requires 0 <= t < |s.threads|
  {
    var s1 := if s.singleDone then s
              else s.(leftnew := s.left - s.leftoverLeft * c.chunk,
                      rightnew := s.right + s.leftoverRight * c.chunk, singleDone := true);
    Put(s1, t, s.threads[t].(pc := Barrier2))
  }

  function ReserveStep<T>(c: Round<T>, s: State<T>, t: int): State<T>
    requires 0 <= t < |s.threads| && ReserveSafe(c, s, s.threads[t])
  {
    var th := s.threads[t];
    var l := HoldsLeft(th) && th.tlb >= s.leftnew;
    var r := HoldsRight(th) && th.trb <= s.rightnew;
    var p := if l then (s.left - (th.tlb + 1)) / c.chunk else -1;
    var q := if r then ((th.trb - 1) - s.right) / c.chunk else -1;
    var s1 := if l then s.(reservedLeft := s.reservedLeft[p := true]) else s;
    var s2 := if r then s1.(reservedRight := s.reservedRight[q := true]) else s1;
    Put(s2, t, th.(pc := Barrier3, spot := if l then p else q))
  }

  function FindLeftStep<T>(c: Round<T>, s: State<T>, t: int): State<T>
    requires 0 <= t < |s.threads| && FindLeftSafe(s, s.threads[t])
  {
    var th := s.threads[t];
    if HoldsLeft(th) && th.tlb < s.leftnew then
      var r := FirstFree(s.reservedLeft, s.leftoverLeft);
      Put(s.(reservedLeft := s.reservedLeft[r := true]), t,
          th.(pc := SwapLeft, spot := r, swapstart := s.left - (r + 1) * c.chunk))
    else
      Put(s, t, th.(pc := FindRight))
  }

  function SwapLeftStep<T>(c: Round<T>, s: State<T>, t: int): State<T>
    requires 0 <= t < |s.threads| && SwapLeftSafe(c, s, s.threads[t])
  {
    var th := s.threads[t];
    if th.k < c.chunk then
      Put(s.(a := Swapped(s.a, th.tlb - (c.chunk - 1) + th.k, th.swapstart + th.k)), t, th.(k := th.k + 1))
    else
      Put(s, t, th.(pc := FindRight))
  }

  function FindRightStep<T>(c: Round<T>, s: State<T>, t: int): State<T>
    requires 0 <= t < |s.threads| && FindRightSafe(s, s.threads[t])
  {
    var th := s.threads[t];
    if HoldsRight(th) && th.trb > s.rightnew then
      var r := FirstFree(s.reservedRight, s.leftoverRight);
      Put(s.(reservedRight := s.reservedRight[r := true]), t,
          th.(pc := SwapRight, spot := r, swapstart := s.right + r * c.chunk + 1))
    else
      Put(s, t, th.(pc := Barrier4))
  }

  function SwapRightStep<T>(c: Round<T>, s: State<T>, t: int): State<T>
    requires 0 <= t < |s.threads| && SwapRightSafe(c, s, s.threads[t])
  {
    var th := s.threads[t];
    if th.k < c.chunk then
      Put(s.(a := Swapped(s.a, th.trb + th.k, th.swapstart + th.k)), t, th.(k := th.k + 1))
    else
      Put(s, t, th.(pc := Barrier4))
  }

  function BarrierStep<T>(s: State<T>, t: int, next: PC): State<T>
    requires 0 <= t < |s.threads|
  {
    Put(s, t, s.threads[t].(pc := next))
  }

  function TestStep<T>(s: State<T>, t: int): State<T>
    requires 0 <= t < |s.threads|
  {
    var th := s.threads[t];
    Put(s, t, th.(pc := if th.finished then CountLeft else LoopOrFetch(th.tl, th.tr)))
  }

  function CountLeftStep<T>(s: State<T>, t: int): State<T>
    requires 0 <= t < |s.threads|
  {
    var th := s.threads[t];
    Put(s.(leftoverLeft := s.leftoverLeft + (if HoldsLeft(th) then 1 else 0)), t, th.(pc := CountRight))
  }

  function CountRightStep<T>(s: State<T>, t: int): State<T>
    requires 0 <= t < |s.threads|
  {
    var th := s.threads[t];
    Put(s.(leftoverRight := s.leftoverRight + (if HoldsRight(th) then 1 else 0)), t, th.(pc := Barrier1))
  }

  function PublishStep<T>(s: State<T>, t: int): State<T>
    requires 0 <= t < |s.threads|
  {
    Put(s.(left := s.leftnew, right := s.rightnew), t, s.threads[t].(pc := Done))
  }

  /** One step of thread t: up to the first barrier ... */
  function EarlyStep<T>(c: Round<T>, s: State<T>, t: int): State<T>
    requires StepSafe(c, s, t)
  {
    var pc := s.threads[t].pc;
    if pc.Start? then StartStep(c, s, t)
    else if pc.FetchLeft? then FetchLeftStep(c, s, t)
    else if pc.FetchRight? then FetchRightStep(c, s, t)
    else if pc.Test? then TestStep(s, t)
    else if pc.ScanLeft? then ScanLeftStep(c, s, t)
    else if pc.ScanRight? then ScanRightStep(c, s, t)
    else if pc.Exchange? then ExchangeStep(c, s, t)
    else if pc.CountLeft? then CountLeftStep(s, t)
    else CountRightStep(s, t)
  }

  /** ... up to the third barrier ... */
  function MiddleStep<T>(c: Round<T>, s: State<T>, t: int): State<T>
    requires StepSafe(c, s, t)
  {
    var pc := s.threads[t].pc;
    if pc.Barrier1? then BarrierStep(s, t, Single)
    else if pc.Single? then SingleStep(c, s, t)
    else if pc.Barrier2? then BarrierStep(s, t, Reserve)
    else if pc.Reserve? then ReserveStep(c, s, t)
    else BarrierStep(s, t, FindLeft)
  }

  /** ... and to the end of the round. */
  function MovingStep<T>(c: Round<T>, s: State<T>, t: int): State<T>
    requires StepSafe(c, s, t)
  {
    var pc := s.threads[t].pc;
    if pc.FindLeft? then FindLeftStep(c, s, t)
    else if pc.SwapLeft? then SwapLeftStep(c, s, t)
    else if pc.FindRight? then FindRightStep(c, s, t)
    else if pc.SwapRight? then SwapRightStep(c, s, t)
    else if pc.Barrier4? then BarrierStep(s, t, Publish)
    else if pc.Publish? then PublishStep(s, t)
    else s
  }

  /** One step of thread t. */
  function Step<T>(c: Round<T>, s: State<T>, t: int): State<T>
    requires StepSafe(c, s, t)
  {
    var rank := Rank(s.threads[t].pc);
    if rank < 3 then EarlyStep(c, s, t)
    else if rank < 8 then MiddleStep(c, s, t)
    else MovingStep(c, s, t)
  }

  /** The condition of the inner `while(thread_left < thread_right)`. */
  function LoopOrFetch(tl: int, tr: int): PC {
    if tl < tr then ScanLeft else FetchLeft
  }

  // ----- the two sides -----

  datatype End = Low | High

  function LaneOf<T>(c: Round<T>, th: Thread, d: End): Lane {
    match d
    case Low => Lane(th.tl, th.tlb, th.spot, th.swapstart, th.k)
    case High => Lane(c.n - 1 - th.tr, c.n - 1 - th.trb, th.spot, c.n - c.chunk - th.swapstart, th.k)
  }

  function Lanes<T>(c: Round<T>, threads: seq<Thread>, d: End): (r: seq<Lane>)
    ensures |r| == |threads|
    ensures forall t :: 0 <= t < |threads| ==> r[t] == LaneOf(c, threads[t], d)
  {
    seq(|threads|, t requires 0 <= t < |threads| => LaneOf(c, threads[t], d))
  }

  function GoodCells<T>(c: Round<T>, a: seq<T>, d: End): (g: seq<bool>)
    ensures |g| == |a|
    ensures d == Low ==> forall i :: 0 <= i < |a| ==> g[i] == c.pred(a[i])
    ensures d == High ==> forall i :: 0 <= i < |a| ==> g[i] == !c.pred(a[|a| - 1 - i])
  {
    match d
    case Low => seq(|a|, i requires 0 <= i < |a| => c.pred(a[i]))
    case High => seq(|a|, i requires 0 <= i < |a| => !c.pred(a[|a| - 1 - i]))
  }

  function SideOf<T>(c: Round<T>, s: State<T>, d: End): Side {
    match d
    case Low => Side(c.chunk, c.first, s.left, GoodCells(c, s.a, Low), Lanes(c, s.threads, Low), true)
    case High => Side(c.chunk, c.n - 1 - c.last, c.n - 1 - s.right, GoodCells(c, s.a, High), Lanes(c, s.threads, High), false)
  }

  function Zone<T>(c: Round<T>, s: State<T>, d: End): int {
    if d == Low then s.leftnew else c.n - 1 - s.rightnew
  }

  function Leftover<T>(s: State<T>, d: End): int {
    if d == Low then s.leftoverLeft else s.leftoverRight
  }

  function Reserved<T>(s: State<T>, d: End): seq<bool> {
    if d == Low then s.reservedLeft else s.reservedRight
  }

  // ----- the invariant -----

  predicate Shape<T>(c: Round<T>, s: State<T>) {
    && 1 <= c.chunk && 1 <= c.threads == |s.threads|
    && c.threads <= |s.reservedLeft| && c.threads <= |s.reservedRight|
    && 0 <= c.first <= s.left <= s.right + 1 && s.right <= c.last < c.n == |s.a|
    && multiset(s.a) == c.bag
    && 2 * (c.threads * c.chunk) <= c.last - c.first + 1
  }

  predicate MovesLeft<T>(s: State<T>, th: Thread) {
    HoldsLeft(th) && th.tlb < s.leftnew
  }

  predicate MovesRight<T>(s: State<T>, th: Thread) {
    HoldsRight(th) && th.trb > s.rightnew
  }

  predicate InLoop<T>(c: Round<T>, s: State<T>, th: Thread) {
    && !th.finished
    && 0 <= th.tl <= th.tlb + 1 && 0 <= th.tlb < s.left
    && s.right < th.trb <= c.n - 1 && th.trb - 1 <= th.tr <= c.n - 1
  }

  predicate LeftStopped<T>(c: Round<T>, s: State<T>, th: Thread) {
    HoldsLeft(th) ==> 0 <= th.tl < |s.a| && !c.pred(s.a[th.tl])
  }

  predicate RightStopped<T>(c: Round<T>, s: State<T>, th: Thread) {
    HoldsRight(th) ==> 0 <= th.tr < |s.a| && c.pred(s.a[th.tr])
  }

  /** The chunks are used up: fewer than `chunk` cells remain between the cursors. */
  predicate Tight<T>(c: Round<T>, s: State<T>) {
    s.right - s.left + 1 < c.chunk
  }

  predicate InRound(pc: PC) {
    pc.ScanLeft? || pc.ScanRight? || pc.Exchange?
  }

  /** What a thread knows at its program point. */
  predicate ThreadOk<T>(c: Round<T>, s: State<T>, th: Thread) {
    && (Rank(th.pc) <= 6 ==> th.spot == -1 && th.k == 0)
    && (if Rank(th.pc) == 0 then LoopOk(c, s, th) else LeaveOk(c, s, th))
  }

  predicate LoopOk<T>(c: Round<T>, s: State<T>, th: Thread) {
    && (th.pc.Start? ==> !HoldsLeft(th) && !HoldsRight(th) && !th.finished)
    && (th.pc.FetchLeft? ==> !th.finished && !(HoldsLeft(th) && HoldsRight(th)))
    && (th.pc.FetchRight? ==> if th.finished then !HoldsLeft(th) && Tight(c, s) else HoldsLeft(th))
    && (th.pc.Test? ==>
          if th.finished then !(HoldsLeft(th) && HoldsRight(th)) && Tight(c, s)
          else HoldsLeft(th) && HoldsRight(th))
    && (InRound(th.pc) ==> InLoop(c, s, th))
    && (th.pc.ScanRight? || th.pc.Exchange? ==> LeftStopped(c, s, th))
    && (th.pc.Exchange? ==> RightStopped(c, s, th))
  }

  predicate LeaveOk<T>(c: Round<T>, s: State<T>, th: Thread) {
    && th.finished && !(HoldsLeft(th) && HoldsRight(th)) && Tight(c, s)
    && (Rank(th.pc) >= 7 ==> SpotStage(c, s, th))
  }

  /** How far a thread is with its leftover chunk after the reservations. */
  predicate SpotStage<T>(c: Round<T>, s: State<T>, th: Thread) {
    && (HoldsLeft(th) && !MovesLeft(s, th) ==> th.spot >= 0)
    && (HoldsRight(th) && !MovesRight(s, th) ==> th.spot >= 0)
    && (MovesLeft(s, th) ==>
          if Rank(th.pc) < 9 then th.spot == -1 && th.k == 0
          else th.spot >= 0 && 0 <= th.k <= c.chunk && (Rank(th.pc) > 9 ==> th.k == c.chunk))
    && (MovesRight(s, th) ==>
          if Rank(th.pc) < 11 then th.spot == -1 && th.k == 0
          else th.spot >= 0 && 0 <= th.k <= c.chunk && (Rank(th.pc) > 11 ==> th.k == c.chunk))
    && (th.pc.SwapLeft? ==> MovesLeft(s, th))
    && (th.pc.SwapRight? ==> MovesRight(s, th))
  }

  /** Nobody passes a barrier before everybody has reached it. */
  predicate Phases<T>(s: State<T>) {
    forall t :: 0 <= t < |s.threads| ==> Behind(s, Rank(s.threads[t].pc))
  }

  predicate Behind<T>(s: State<T>, rank: int) {
    && (rank > 3 ==> AllReached(s, 3))
    && (rank > 5 ==> AllReached(s, 5))
    && (rank > 7 ==> AllReached(s, 7))
    && (rank > 12 ==> AllReached(s, 12))
    && (rank >= 5 ==> s.singleDone)
  }

  predicate CountedAt<T>(s: State<T>, d: End, t: int) {
    && 0 <= t < |s.threads|
    && if d == Low then Rank(s.threads[t].pc) > 1 && HoldsLeft(s.threads[t])
       else Rank(s.threads[t].pc) > 2 && HoldsRight(s.threads[t])
  }

  /** The threads that have announced a leftover chunk. */
  function Counted<T>(s: State<T>, d: End): set<int> {
    set t | 0 <= t < |s.threads| && CountedAt(s, d, t)
  }

  ghost predicate Table<T>(c: Round<T>, s: State<T>, d: End) {
    && Leftover(s, d) == |Counted(s, d)|
    && (if s.singleDone then
          && AllReached(s, 3)
          && SpotLaw(SideOf(c, s, d), Zone(c, s, d), Leftover(s, d), Reserved(s, d))
        else
          forall r :: 0 <= r < c.threads && r < |Reserved(s, d)| ==> !Reserved(s, d)[r])
  }

  function Waiting<T>(s: State<T>): set<int> {
    set t | 0 <= t < |s.threads| && AtFetchRight(s, t)
  }

  predicate AtFetchRight<T>(s: State<T>, t: int) {
    0 <= t < |s.threads| && s.threads[t].pc == FetchRight
  }

  /** While no right chunk has been handed out, every left chunk handed out belongs to a thread
      that has not yet asked for a right one. */
  predicate Opening<T>(c: Round<T>, s: State<T>) {
    s.right == c.last ==>
      && (forall t :: 0 <= t < |s.threads| ==>
            var th := s.threads[t];
            th.pc in {Start, FetchLeft, FetchRight} && (HoldsLeft(th) <==> th.pc == FetchRight))
      && s.left - c.first == |Waiting(s)| * c.chunk
  }

  ghost predicate SideOk<T>(c: Round<T>, s: State<T>, d: End) {
    Lawful(SideOf(c, s, d)) && Aligned(SideOf(c, s, d))
  }

  ghost predicate Running<T>(c: Round<T>, s: State<T>) {
    && Shape(c, s)
    && SideOk(c, s, Low) && SideOk(c, s, High)
    && (forall t :: 0 <= t < |s.threads| ==> ThreadOk(c, s, s.threads[t]))
    && Phases(s)
    && Table(c, s, Low) && Table(c, s, High)
    && Opening(c, s)
  }

  /** The result of a round: the unknown zone has shrunk to leftnew..rightnew. */
  predicate Settled<T>(c: Round<T>, s: State<T>, lo: int, hi: int) {
    && |s.a| == c.n && multiset(s.a) == c.bag
    && c.first <= lo <= hi + 1 && hi <= c.last && lo < c.n
    && hi - lo + 1 < (c.threads + 1) * c.chunk
    && (forall i :: 0 <= i < lo && i < |s.a| ==> c.pred(s.a[i]))
    && (forall i :: 0 <= i && hi < i < |s.a| ==> !c.pred(s.a[i]))
  }

  ghost predicate Published<T>(c: Round<T>, s: State<T>) {
    && 1 <= c.chunk && c.threads == |s.threads|
    && AllReached(s, 12)
    && Settled(c, s, s.leftnew, s.rightnew)
    && s.left == s.leftnew && s.right == s.rightnew
  }

  predicate SomeDone<T>(s: State<T>) {
    exists t :: 0 <= t < |s.threads| && s.threads[t].pc == Done
  }

  /** The invariant of a round. */
  ghost predicate Inv<T>(c: Round<T>, s: State<T>) {
    if SomeDone(s) then Published(c, s) else Running(c, s)
  }
}
