/** The block permutation as a whole: every interleaving keeps the invariant, none deadlocks or goes
    on for ever, and at the end every block is in the region of its class. */
module BlockPermutation {
  import opened BlockProtocol
  import opened BlockProof

  // ----- every step, every run -----

  lemma ReadStepKeeps(j: Job, s: State, t: int)
    requires Inv(j, s) && Enabled(j, s, t) && Reads(s.workers[t].pc)
    ensures StepSafe(j, s, t) && Inv(j, ReadStep(j, s, t))
  {
    hide Inv;
    var pc := s.workers[t].pc;
    if pc.Enter? { EnterKeeps(j, s, t); }
    else if pc.Dec? { DecKeeps(j, s, t); }
    else if pc.Copy? { CopyKeeps(j, s, t); }
    else if pc.StopRead? { StopReadKeeps(j, s, t); }
    else { StopEmptyKeeps(j, s, t); }
  }

  lemma WriteStepKeeps(j: Job, s: State, t: int)
    requires Inv(j, s) && Enabled(j, s, t) && !Reads(s.workers[t].pc)
    ensures StepSafe(j, s, t) && Inv(j, WriteStep(j, s, t))
  {
    assert WorkerOk(j, s, t);
    hide Inv;
    var pc := s.workers[t].pc;
    if pc.IncWrite? { IncWriteKeeps(j, s, t); }
    else if pc.Spill? { SpillKeeps(j, s, t); }
    else if pc.Wait? { WaitKeeps(j, s, t); }
    else if pc.Store? { StoreKeeps(j, s, t); }
    else if pc.Examine? { ExamineKeeps(j, s, t); }
    else if pc.TakeOut? { TakeOutKeeps(j, s, t); }
    else { PutInKeeps(j, s, t); }
  }

  /** Main step theorem: an enabled step touches only existing slots and keeps the invariant. */
  lemma StepKeeps(j: Job, s: State, t: int)
    requires Inv(j, s) && Enabled(j, s, t)
    ensures StepSafe(j, s, t) && Inv(j, Step(j, s, t))
  {
    hide Inv;
    if Reads(s.workers[t].pc) {
      ReadStepKeeps(j, s, t);
    } else {
      WriteStepKeeps(j, s, t);
    }
  }

  /** The run that a schedule determines; a worker that has to wait loses its turn. */
  ghost function Run(j: Job, s: State, schedule: seq<int>): (r: State)
    requires Inv(j, s)
    ensures Inv(j, r)
    decreases |schedule|
  {
    if schedule == [] then s
    else if Enabled(j, s, schedule[0]) then
      StepKeeps(j, s, schedule[0]);
      Run(j, Step(j, s, schedule[0]), schedule[1..])
    else Run(j, s, schedule[1..])
  }

  // ----- the start -----

  function FreshWorker(t: int, workers: int, buckets: int): Worker
    requires 1 <= workers && 1 <= buckets
  {
    Worker(Enter, buckets, (t * buckets / workers) % buckets, 0, 0, 0, false, 0, 0, -1)
  }

  /** The state in which the workers start: bucket b has its unprocessed blocks in start[b]..tops[b],
      and `home` says where each block is. */
  function Begun(j: Job, cells: seq<int>, tops: seq<int>, home: seq<Loc>): State
    requires 1 <= j.workers && 2 <= |j.start| == |tops| + 1
  {
    State(cells, seq(|tops|, b requires 0 <= b < |tops| => Bucket(j.start[b], tops[b], 0)),
          seq(j.workers, t => FreshWorker(t, j.workers, |tops|)), -1, home)
  }

  /** What local classification and empty block movement leave behind: every block is in exactly one
      unprocessed slot, and every unprocessed slot holds a block. */
  ghost predicate Ready(j: Job, cells: seq<int>, tops: seq<int>, home: seq<Loc>) {
    && JobOk(j) && |tops| == |j.start| - 1 && |cells| == j.slots && |home| == |j.cls|
    && (forall b :: IsBucket(j, b) ==> tops[b] < j.start[b + 1] && tops[b] < j.slots)
    && (forall b, k :: IsBucket(j, b) && j.start[b] <= k <= tops[b] && 0 <= k < |cells| ==>
          IsBlock(j, cells[k]) && home[cells[k]] == At(b, k))
    && (forall id :: 0 <= id < |home| ==>
          home[id].At? && IsBucket(j, home[id].bucket)
          && j.start[home[id].bucket] <= home[id].slot <= tops[home[id].bucket]
          && 0 <= home[id].slot < |cells| && cells[home[id].slot] == id)
  }

  lemma BegunBlocks(j: Job, cells: seq<int>, tops: seq<int>, home: seq<Loc>)
    requires Ready(j, cells, tops, home)
    ensures var s := Begun(j, cells, tops, home); Shape(j, s) && UnprocessedLive(j, s) && LocsOk(j, s)
  {
    var s := Begun(j, cells, tops, home);
    forall b, k | Unprocessed(s, b, k)
      ensures LiveAt(j, s, b, k)
    {
      assert IsBucket(j, b);
      StartsOrdered(j, 0, b);
    }
    forall id | 0 <= id < |s.loc|
      ensures LocOk(j, s, id)
    {
      assert Unprocessed(s, home[id].bucket, home[id].slot);
    }
  }

  lemma BegunWorkers(j: Job, cells: seq<int>, tops: seq<int>, home: seq<Loc>)
    requires Ready(j, cells, tops, home)
    ensures var s := Begun(j, cells, tops, home); WorkersOk(j, s) && ReadersOk(j, s) && VisitedEmpty(j, s)
    ensures var s := Begun(j, cells, tops, home); ClaimsApart(s) && EmptySlots(j, s) && PassedOk(j, s) && OverflowOk(j, s)
  {
    var s := Begun(j, cells, tops, home);
    forall t | 0 <= t < |s.workers|
      ensures s.workers[t].pc.Enter? && IsBucket(j, s.workers[t].readBucket)
      ensures s.workers[t].count == |tops|
    {
      assert s.workers[t] == FreshWorker(t, j.workers, |tops|);
    }
    hide FreshWorker;
    assert forall t, b, k :: !WriteClaim(s, t, b, k) && !ReadClaim(s, t, b, k);
    assert forall b, k :: !Passed(j, s, b, k);
    forall b | IsBucket(j, b)
      ensures s.buckets[b].reading == |Readers(s, b)|
    {
      assert Readers(s, b) == {};
    }
  }

  lemma BegunInv(j: Job, cells: seq<int>, tops: seq<int>, home: seq<Loc>)
    requires Ready(j, cells, tops, home)
    ensures Inv(j, Begun(j, cells, tops, home))
  {
    BegunBlocks(j, cells, tops, home);
    BegunWorkers(j, cells, tops, home);
    var s := Begun(j, cells, tops, home);
    hide Shape, LocsOk, WorkersOk, ReadersOk, VisitedEmpty, UnprocessedLive, FreshWorker, Ready;
  }

  predicate AllDone(s: State) {
    forall t :: 0 <= t < |s.workers| ==> s.workers[t].pc.Done?
  }

  /** What slot k finally holds; slot number `slots` is the overflow buffer. */
  function Content(j: Job, s: State, k: int): int {
    if 0 <= k < |s.cells| then s.cells[k]
    else if 0 <= s.overflowOf < |s.workers| then s.workers[s.overflowOf].overflow
    else -1
  }

  function Contents(j: Job, s: State, b: int): seq<int>
    requires IsBucket(j, b)
  {
    seq(Quota(j, b), i => Content(j, s, j.start[b] + i))
  }

  /** The first F_b slots of every region hold exactly the blocks of its class. */
  ghost predicate Permuted(j: Job, s: State) {
    forall b :: IsBucket(j, b) ==> RegionFull(j, s, b)
  }

  ghost predicate RegionFull(j: Job, s: State, b: int)
    requires IsBucket(j, b)
  {
    && b < |s.buckets| && s.buckets[b].w == j.start[b] + Quota(j, b)
    && (forall id :: id in Contents(j, s, b) <==> id in ClassSet(j, b))
    && (forall i, l :: 0 <= i < l < Quota(j, b) ==> Contents(j, s, b)[i] != Contents(j, s, b)[l])
  }

  /** When all workers are done, every bucket is empty ... */
  lemma AllEmpty(j: Job, s: State, b: int)
    requires Inv(j, s) && AllDone(s) && IsBucket(j, b)
    ensures b < |s.buckets| && s.buckets[b].r < s.buckets[b].w
  {
    assert WorkerOk(j, s, 0);
    assert VisitedBy(j, s.workers[0], b);
  }

  /** ... so every block has reached the region of its class. */
  lemma BlockArrived(j: Job, s: State, id: int)
    requires Inv(j, s) && AllDone(s) && IsBlock(j, id)
    ensures var b := j.cls[id];
            && IsBucket(j, b) && b < |s.buckets|
            && exists k :: Passed(j, s, b, k) && Content(j, s, k) == id
  {
    var b := j.cls[id];
    assert IsBucket(j, b);
    assert LocOk(j, s, id);
    match s.loc[id]
    case At(c, k) =>
      AllEmpty(j, s, c);
      assert Passed(j, s, b, k) && Content(j, s, k) == id;
    case Buffer(t) =>
    case Spilled(t) =>
      ClassNonEmpty(j, id, b);
      LastRegion(j, s, b);
      assert Passed(j, s, b, j.slots) && Content(j, s, j.slots) == id;
  }

  lemma SettledContent(j: Job, s: State, b: int, k: int)
    requires Inv(j, s) && AllDone(s) && IsBucket(j, b) && Passed(j, s, b, k)
    ensures 0 <= k && Content(j, s, k) in ClassSet(j, b) && Content(j, s, k) == Charge(j, s, b, k)
  {
    ChargeIs(j, s, b, k);
    assert SettledAt(j, s, b, k);
    assert forall u :: !WriteClaim(s, u, b, k);
    assert OfClass(j, Content(j, s, k), b);
  }

  lemma SlotOf(j: Job, s: State, b: int, id: int) returns (k: int)
    requires Inv(j, s) && AllDone(s) && IsBucket(j, b) && id in ClassSet(j, b)
    ensures Passed(j, s, b, k) && Content(j, s, k) == id
  {
    hide Inv, AllDone;
    BlockArrived(j, s, id);
    k :| Passed(j, s, b, k) && Content(j, s, k) == id;
  }

  lemma RegionSize(j: Job, s: State, b: int)
    requires Inv(j, s) && AllDone(s) && IsBucket(j, b)
    ensures b < |s.buckets| && s.buckets[b].w == j.start[b] + Quota(j, b)
  {
    var n := s.buckets[b].w - j.start[b];
    var q := seq(n, i => Content(j, s, j.start[b] + i));
    forall id | id in ClassSet(j, b)
      ensures id in q
    {
      var k := SlotOf(j, s, b, id);
      assert q[k - j.start[b]] == id;
    }
    OccurringFit(q, ClassSet(j, b));
  }

  lemma ContentsDiffer(j: Job, s: State, b: int, k: int, l: int)
    requires Inv(j, s) && AllDone(s) && IsBucket(j, b) && Passed(j, s, b, k) && Passed(j, s, b, l) && k != l
    ensures Content(j, s, k) != Content(j, s, l)
  {
    hide Inv, BlocksOk;
    InvParts(j, s);
    SettledContent(j, s, b, k);
    SettledContent(j, s, b, l);
    ChargesDiffer(j, s, b, k, l);
  }

  lemma RegionIsFull(j: Job, s: State, b: int)
    requires Inv(j, s) && AllDone(s) && IsBucket(j, b)
    ensures RegionFull(j, s, b)
  {
    hide Inv, AllDone, ClassSet, Content;
    RegionSize(j, s, b);
    var q := Contents(j, s, b);
    forall id
      ensures id in q <==> id in ClassSet(j, b)
    {
      if id in ClassSet(j, b) {
        var k := SlotOf(j, s, b, id);
        assert q[k - j.start[b]] == id;
      }
      if id in q {
        var i :| 0 <= i < |q| && q[i] == id;
        assert Passed(j, s, b, j.start[b] + i);
        SettledContent(j, s, b, j.start[b] + i);
      }
    }
    forall i, l | 0 <= i < l < Quota(j, b)
      ensures q[i] != q[l]
    {
      ContentsDiffer(j, s, b, j.start[b] + i, j.start[b] + l);
    }
  }

  /** Write pointers stay in their regions, no slot is claimed twice, nothing is overwritten before
      it has been read: at every moment every block is where it is recorded to be. */
  ghost predicate NothingLost(j: Job, s: State) {
    && (forall b :: IsBucket(j, b) ==> b < |s.buckets| && j.start[b] <= s.buckets[b].w <= j.start[b] + Quota(j, b))
    && (forall id :: 0 <= id < |j.cls| ==> id < |s.loc| && Found(s, id, s.loc[id]))
    && (forall id, other :: 0 <= id < |s.loc| && 0 <= other < |s.loc| && s.loc[id].Spilled? && s.loc[other].Spilled? ==> id == other)
    && (forall t, u, b, k :: t != u && WriteClaim(s, t, b, k) ==> !WriteClaim(s, u, b, k))
    && (forall t, u, b, k :: t != u && ReadClaim(s, t, b, k) ==> !ReadClaim(s, u, b, k) && !ExamineClaim(s, u, b, k))
    && (forall t, u, b, k :: 0 <= t < |s.workers| && s.workers[t].pc.Store? && WriteClaim(s, t, b, k) ==> !ReadClaim(s, u, b, k))
  }

  predicate Found(s: State, id: int, l: Loc) {
    match l
    case At(b, k) => 0 <= k < |s.cells| && s.cells[k] == id
    case Buffer(t) => 0 <= t < |s.workers| && Holds(s.workers[t].pc) && Buf(s.workers[t]) == id
    case Spilled(t) => 0 <= t < |s.workers| && s.overflowOf == t && s.workers[t].overflow == id
  }

  lemma NothingIsLost(j: Job, s: State)
    requires Inv(j, s)
    ensures NothingLost(j, s)
  {
    forall id | 0 <= id < |j.cls|
      ensures id < |s.loc| && Found(s, id, s.loc[id])
    {
      assert LocOk(j, s, id);
    }
    forall id, other | 0 <= id < |s.loc| && 0 <= other < |s.loc| && s.loc[id].Spilled? && s.loc[other].Spilled?
      ensures id == other
    {
      assert LocOk(j, s, id) && LocOk(j, s, other);
    }
  }

  /** Safety and completion in every interleaving of any number of workers. */
  lemma EveryInterleaving(j: Job, cells: seq<int>, tops: seq<int>, home: seq<Loc>, schedule: seq<int>)
    requires Ready(j, cells, tops, home)
    ensures Inv(j, Begun(j, cells, tops, home))
    ensures var s := Run(j, Begun(j, cells, tops, home), schedule);
            NothingLost(j, s) && (AllDone(s) ==> Permuted(j, s))
  {
    BegunInv(j, cells, tops, home);
    var s := Run(j, Begun(j, cells, tops, home), schedule);
    hide Inv;
    NothingIsLost(j, s);
    if AllDone(s) {
      forall b | IsBucket(j, b)
        ensures RegionFull(j, s, b)
      {
        RegionIsFull(j, s, b);
      }
    }
  }

  // ----- the regions have room -----

  /** alignToNextBlock, counted in blocks. */
  function BlocksUpTo(x: nat, block: nat): nat
    requires 1 <= block
  {
    (x + block - 1) / block
  }

  /** If the elements of a bucket include all its full blocks, its block-aligned region has room for
      them; and the last region ends at most one block after the complete blocks of the array. */
  lemma RegionsHaveRoom(from: nat, to: nat, block: nat, full: nat)
    requires 1 <= block && from + full * block <= to
    ensures BlocksUpTo(from, block) + full <= BlocksUpTo(to, block)
    ensures BlocksUpTo(to, block) <= to / block + 1
  {
    var a, b := BlocksUpTo(from, block), BlocksUpTo(to, block);
    var d := to / block;
    assert a * block <= from + block - 1;
    assert to + block - 1 < (b + 1) * block;
    assert b * block <= to + block - 1;
    assert to < (d + 1) * block;
    assert (a + full) * block == a * block + full * block;
    if a + full > b {
      LeMul(b + 1, a + full, block);
    }
    assert (d + 2) * block == (d + 1) * block + block;
    if b > d + 1 {
      LeMul(d + 2, b, block);
    }
  }

  lemma LeMul(x: nat, y: nat, c: nat)
    requires x <= y
    ensures x * c <= y * c
  {
    assert y * c == x * c + (y - x) * c;
  }

  // ----- no deadlock -----

  /** While some worker is not done, some worker can move: a worker that waits, waits for a reader,
      and readers never wait. */
  lemma NoDeadlock(j: Job, s: State)
    requires Inv(j, s) && !AllDone(s)
    ensures exists t :: Enabled(j, s, t)
  {
    var t :| 0 <= t < |s.workers| && !s.workers[t].pc.Done?;
    assert WorkerOk(j, s, t);
    if s.workers[t].pc.Wait? && s.buckets[s.workers[t].dest].reading != 0 {
      var b := s.workers[t].dest;
      assert |Readers(s, b)| != 0;
      var u :| u in Readers(s, b);
      assert Enabled(j, s, u);
    } else {
      assert Enabled(j, s, t);
    }
  }

  /** Where nobody can move, everybody is done. */
  lemma QuietIsDone(j: Job, s: State)
    requires Inv(j, s) && forall t :: !Enabled(j, s, t)
    ensures AllDone(s)
  {
    if !AllDone(s) {
      NoDeadlock(j, s);
    }
  }

  // ----- termination -----

  function Backlog(k: Bucket): nat {
    if k.w <= k.r then k.r - k.w + 1 else 0
  }

  function Total(buckets: seq<Bucket>): nat {
    if buckets == [] then 0 else Backlog(buckets[0]) + Total(buckets[1..])
  }

  lemma {:induction false} TotalUpdate(buckets: seq<Bucket>, b: int, k: Bucket)
    requires 0 <= b < |buckets|
    ensures Total(buckets[b := k]) == Total(buckets) - Backlog(buckets[b]) + Backlog(k)
    decreases |buckets|
  {
    if b == 0 {
      assert buckets[b := k][1..] == buckets[1..];
    } else {
      assert buckets[b := k][1..] == buckets[1..][b - 1 := k];
      TotalUpdate(buckets[1..], b - 1, k);
    }
  }

  function Pot(x: Worker): int {
    8 * x.count +
    (if x.pc.Enter? then 6
     else if x.pc.Dec? then 5
     else if x.pc.StopEmpty? then 4
     else if x.pc.Copy? then 20
     else if x.pc.StopRead? then 19
     else if x.pc.IncWrite? then 18
     else if x.pc.Wait? || x.pc.Spill? then 17
     else if x.pc.Store? then 16
     else if x.pc.Examine? then 30
     else if x.pc.TakeOut? then 29
     else if x.pc.PutIn? then 28
     else 0)
  }

  function Pots(workers: seq<Worker>): int {
    if workers == [] then 0 else Pot(workers[0]) + Pots(workers[1..])
  }

  lemma {:induction false} PotsUpdate(workers: seq<Worker>, t: int, x: Worker)
    requires 0 <= t < |workers|
    ensures Pots(workers[t := x]) == Pots(workers) - Pot(workers[t]) + Pot(x)
    decreases |workers|
  {
    if t == 0 {
      assert workers[t := x][1..] == workers[1..];
    } else {
      assert workers[t := x][1..] == workers[1..][t - 1 := x];
      PotsUpdate(workers[1..], t - 1, x);
    }
  }

  lemma {:induction false} PotsNatural(workers: seq<Worker>)
    requires forall t :: 0 <= t < |workers| ==> workers[t].count >= 0
    ensures Pots(workers) >= 0
    decreases |workers|
  {
    if workers != [] {
      assert forall t :: 0 <= t < |workers| - 1 ==> workers[1..][t] == workers[t + 1];
      PotsNatural(workers[1..]);
    }
  }

  /** The work left: blocks not yet claimed, and what each worker still has to do. */
  function Work(s: State): int {
    20 * Total(s.buckets) + Pots(s.workers)
  }

  lemma WorkNatural(j: Job, s: State)
    requires Inv(j, s)
    ensures Work(s) >= 0
  {
    forall t | 0 <= t < |s.workers|
      ensures s.workers[t].count >= 0
    {
      assert WorkerOk(j, s, t);
    }
    PotsNatural(s.workers);
  }

  lemma WorkOfMove(s: State, s': State, t: int, b: int)
    requires 0 <= t < |s.workers| == |s'.workers| && s'.workers == s.workers[t := s'.workers[t]]
    requires 0 <= b < |s.buckets| == |s'.buckets| && s'.buckets == s.buckets[b := s'.buckets[b]]
    ensures Work(s') - Work(s) ==
            20 * (Backlog(s'.buckets[b]) - Backlog(s.buckets[b])) + Pot(s'.workers[t]) - Pot(s.workers[t])
  {
    PotsUpdate(s.workers, t, s'.workers[t]);
    TotalUpdate(s.buckets, b, s'.buckets[b]);
  }

  lemma OneWorker(j: Job, s: State, t: int)
    requires Inv(j, s) && 0 <= t < |s.workers|
    ensures WorkerOk(j, s, t)
  {
  }

  /** Every step of every worker strictly reduces the work, so no schedule goes on for ever. */
  lemma StepWorks(j: Job, s: State, t: int)
    requires Inv(j, s) && Enabled(j, s, t)
    ensures StepSafe(j, s, t) && Work(Step(j, s, t)) < Work(s)
  {
    hide Inv, Work, Total, Pots;
    StepKeeps(j, s, t);
    OneWorker(j, s, t);
    var x := s.workers[t];
    WorkOfMove(s, Step(j, s, t), t, if x.pc.IncWrite? then x.dest else x.readBucket);
  }
}
