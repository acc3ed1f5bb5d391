/** The concurrent block permutation of ips4o (block_permutation.hpp, bucket_pointers.hpp): the
    program of a worker as a step function, and the invariant of all interleavings.

    All offsets are counted in blocks.  A block is named by a number; the protocol only copies
    blocks and reads the class of a block's head, so `cls` (the class of each block) is all that
    is needed to know about their contents. */
module BlockProtocol {

  /** Where a block lives: in a slot of a bucket's region, in the current swap buffer of a worker,
      or in the overflow buffer of a worker.  (Copies left behind in slots and buffers are dead.) */
  datatype Loc = At(bucket: int, slot: int) | Buffer(worker: int) | Spilled(worker: int)

  datatype Bucket = Bucket(w: int, r: int, reading: int)

  datatype PC =
    | Enter | Dec | Copy | StopEmpty | StopRead
    | IncWrite | Spill | Wait | Store
    | Examine | TakeOut | PutIn
    | Done

  /** Private variables: buckets left to visit, the bucket read from, the destination bucket, the
      class found in the destination slot, the slot (write or read) last claimed, current_swap,
      the two swap buffers and the local overflow buffer (-1: never used). */
  datatype Worker = Worker(pc: PC, count: int, readBucket: int, dest: int, newDest: int, slot: int,
                           cur: bool, swap0: int, swap1: int, overflow: int)

  /** `start[b]` is the first slot of bucket b's region, `start[K]` the end of the last one; `slots`
      is the number of complete blocks of the array (max_off). */
  datatype Job = Job(cls: seq<int>, start: seq<int>, slots: int, workers: int)

  /** `overflowOf` is the worker overflow_ points to (-1: nullptr). `loc` is an auxiliary variable. */
  datatype State = State(cells: seq<int>, buckets: seq<Bucket>, workers: seq<Worker>, overflowOf: int, loc: seq<Loc>)

  function Buf(x: Worker): int {
    if x.cur then x.swap1 else x.swap0
  }

  function OtherBuf(x: Worker): int {
    if x.cur then x.swap0 else x.swap1
  }

  predicate IsBucket(j: Job, b: int) {
    0 <= b < |j.start| - 1
  }

  predicate IsBlock(j: Job, id: int) {
    0 <= id < |j.cls|
  }

  predicate OfClass(j: Job, id: int, b: int) {
    IsBlock(j, id) && j.cls[id] == b
  }

  /** The blocks of class b; there are F_b of them. */
  function ClassSet(j: Job, b: int): set<int> {
    set id | 0 <= id < |j.cls| && OfClass(j, id, b)
  }

  function Quota(j: Job, b: int): nat {
    |ClassSet(j, b)|
  }

  // ----- the program -----

  predicate Enabled(j: Job, s: State, t: int) {
    && 0 <= t < |s.workers|
    && var x := s.workers[t];
       && !x.pc.Done?
       && (x.pc.Wait? ==> 0 <= x.dest < |s.buckets| && s.buckets[x.dest].reading == 0)
  }

  predicate StepSafe(j: Job, s: State, t: int) {
    && 0 <= t < |s.workers| && 1 <= |s.buckets|
    && var x := s.workers[t];
       && 0 <= x.readBucket < |s.buckets|
       && (x.pc.IncWrite? ==> 0 <= x.dest < |s.buckets|)
       && (x.pc.Copy? || x.pc.Store? || x.pc.Examine? || x.pc.TakeOut? || x.pc.PutIn? ==> 0 <= x.slot < |s.cells|)
       && (x.pc.Copy? || x.pc.PutIn? || x.pc.Examine? ==> IsBlock(j, s.cells[x.slot]) && s.cells[x.slot] < |s.loc|)
       && (x.pc.StopRead? || x.pc.Spill? || x.pc.Store? || x.pc.PutIn? ==> IsBlock(j, Buf(x)) && Buf(x) < |s.loc|)
  }

  function Put(s: State, t: int, x: Worker): State
    requires 0 <= t < |s.workers|
  {
    s.(workers := s.workers[t := x])
  }

  function SetBucket(s: State, b: int, k: Bucket): State
    requires 0 <= b < |s.buckets|
  {
    s.(buckets := s.buckets[b := k])
  }

  /** num_reading_.fetch_add(1) */
  function EnterStep(s: State, t: int): State
    requires 0 <= t < |s.workers| && 0 <= s.workers[t].readBucket < |s.buckets|
  {
    var x := s.workers[t];
    var k := s.buckets[x.readBucket];
    Put(SetBucket(s, x.readBucket, k.(reading := k.reading + 1)), t, x.(pc := Dec))
  }

  /** fetch_sub on the pointer pair: the old read pointer is claimed unless it is below the old
      write pointer. */
  function DecStep(s: State, t: int): State
    requires 0 <= t < |s.workers| && 0 <= s.workers[t].readBucket < |s.buckets|
  {
    var x := s.workers[t];
    var k := s.buckets[x.readBucket];
    Put(SetBucket(s, x.readBucket, k.(r := k.r - 1)), t,
        x.(pc := if k.r < k.w then StopEmpty else Copy, slot := k.r))
  }

  /** local_.swap[0].readFrom */
  function CopyStep(s: State, t: int): State
    requires 0 <= t < |s.workers| && 0 <= s.workers[t].slot < |s.cells|
    requires 0 <= s.cells[s.workers[t].slot] < |s.loc|
  {
    var x := s.workers[t];
    var id := s.cells[x.slot];
    Put(s.(loc := s.loc[id := Buffer(t)]), t, x.(pc := StopRead, cur := false, swap0 := id))
  }

  /** stopRead, then classify the block just read. */
  function StopReadStep(j: Job, s: State, t: int): State
    requires 0 <= t < |s.workers| && 0 <= s.workers[t].readBucket < |s.buckets| && IsBlock(j, Buf(s.workers[t]))
  {
    var x := s.workers[t];
    var k := s.buckets[x.readBucket];
    Put(SetBucket(s, x.readBucket, k.(reading := k.reading - 1)), t, x.(pc := IncWrite, dest := j.cls[Buf(x)]))
  }

  /** stopRead on an empty bucket, then on to the next bucket. */
  function StopEmptyStep(s: State, t: int): State
    requires 0 <= t < |s.workers| && 0 <= s.workers[t].readBucket < |s.buckets|
  {
    var x := s.workers[t];
    var k := s.buckets[x.readBucket];
    Put(SetBucket(s, x.readBucket, k.(reading := k.reading - 1)), t,
        x.(pc := if x.count == 1 then Done else Enter, count := x.count - 1,
           readBucket := (x.readBucket + 1) % |s.buckets|))
  }

  /** fetch_add on the pointer pair: the old write pointer is claimed. */
  function IncWriteStep(j: Job, s: State, t: int): State
    requires 0 <= t < |s.workers| && 0 <= s.workers[t].dest < |s.buckets|
  {
    var x := s.workers[t];
    var k := s.buckets[x.dest];
    Put(SetBucket(s, x.dest, k.(w := k.w + 1)), t,
        x.(pc := if k.w > k.r then (if k.w >= j.slots then Spill else Wait) else Examine, slot := k.w))
  }

  function SpillStep(s: State, t: int): State
    requires 0 <= t < |s.workers| && 0 <= Buf(s.workers[t]) < |s.loc|
  {
    var x := s.workers[t];
    Put(s.(overflowOf := t, loc := s.loc[Buf(x) := Spilled(t)]), t, x.(pc := Enter, overflow := Buf(x)))
  }

  function WaitStep(s: State, t: int): State
    requires 0 <= t < |s.workers|
  {
    Put(s, t, s.workers[t].(pc := Store))
  }

  function StoreStep(s: State, t: int): State
    requires 0 <= t < |s.workers| && 0 <= s.workers[t].slot < |s.cells| && 0 <= Buf(s.workers[t]) < |s.loc|
  {
    var x := s.workers[t];
    Put(s.(cells := s.cells[x.slot := Buf(x)], loc := s.loc[Buf(x) := At(x.dest, x.slot)]), t, x.(pc := Enter))
  }

  function ExamineStep(j: Job, s: State, t: int): State
    requires 0 <= t < |s.workers| && 0 <= s.workers[t].slot < |s.cells| && IsBlock(j, s.cells[s.workers[t].slot])
  {
    var x := s.workers[t];
    var found := j.cls[s.cells[x.slot]];
    Put(s, t, if found == x.dest then x.(pc := IncWrite) else x.(pc := TakeOut, newDest := found))
  }

  function TakeOutStep(s: State, t: int): State
    requires 0 <= t < |s.workers| && 0 <= s.workers[t].slot < |s.cells|
  {
    var x := s.workers[t];
    var id := s.cells[x.slot];
    Put(s, t, if x.cur then x.(pc := PutIn, swap0 := id) else x.(pc := PutIn, swap1 := id))
  }

  function PutInStep(s: State, t: int): State
    requires 0 <= t < |s.workers| && 0 <= s.workers[t].slot < |s.cells|
    requires 0 <= Buf(s.workers[t]) < |s.loc| && 0 <= s.cells[s.workers[t].slot] < |s.loc|
  {
    var x := s.workers[t];
    var out := s.cells[x.slot];
    Put(s.(cells := s.cells[x.slot := Buf(x)], loc := s.loc[out := Buffer(t)][Buf(x) := At(x.dest, x.slot)]), t,
        x.(pc := IncWrite, cur := !x.cur, dest := x.newDest))
  }

  /** One step of worker t: reading ... */
  function ReadStep(j: Job, s: State, t: int): State
    requires StepSafe(j, s, t)
  {
    var pc := s.workers[t].pc;
    if pc.Enter? then EnterStep(s, t)
    else if pc.Dec? then DecStep(s, t)
    else if pc.Copy? then CopyStep(s, t)
    else if pc.StopRead? then StopReadStep(j, s, t)
    else if pc.StopEmpty? then StopEmptyStep(s, t)
    else s
  }

  /** ... and writing. */
  function WriteStep(j: Job, s: State, t: int): State
    requires StepSafe(j, s, t)
  {
    var pc := s.workers[t].pc;
    if pc.IncWrite? then IncWriteStep(j, s, t)
    else if pc.Spill? then SpillStep(s, t)
    else if pc.Wait? then WaitStep(s, t)
    else if pc.Store? then StoreStep(s, t)
    else if pc.Examine? then ExamineStep(j, s, t)
    else if pc.TakeOut? then TakeOutStep(s, t)
    else if pc.PutIn? then PutInStep(s, t)
    else s
  }

  predicate Reads(pc: PC) {
    pc.Enter? || pc.Dec? || pc.Copy? || pc.StopRead? || pc.StopEmpty?
  }

  function Step(j: Job, s: State, t: int): State
    requires StepSafe(j, s, t)
  {
    if Reads(s.workers[t].pc) then ReadStep(j, s, t) else WriteStep(j, s, t)
  }

  // ----- claims -----

  /** Worker t has claimed slot k of bucket b for reading and not copied it yet. */
  predicate ReadClaim(s: State, t: int, b: int, k: int) {
    0 <= t < |s.workers| && s.workers[t].pc.Copy? && s.workers[t].readBucket == b && s.workers[t].slot == k
  }

  predicate Examines(pc: PC) {
    pc.Examine? || pc.TakeOut? || pc.PutIn?
  }

  predicate Pends(pc: PC) {
    pc.Spill? || pc.Wait? || pc.Store?
  }

  /** Worker t has claimed slot k of bucket b for writing, and a block is still in it. */
  predicate ExamineClaim(s: State, t: int, b: int, k: int) {
    0 <= t < |s.workers| && Examines(s.workers[t].pc) && s.workers[t].dest == b && s.workers[t].slot == k
  }

  /** Worker t has claimed slot k of bucket b for writing, and no block to move is in it. */
  predicate PendClaim(s: State, t: int, b: int, k: int) {
    0 <= t < |s.workers| && Pends(s.workers[t].pc) && s.workers[t].dest == b && s.workers[t].slot == k
  }

  predicate WriteClaim(s: State, t: int, b: int, k: int) {
    ExamineClaim(s, t, b, k) || PendClaim(s, t, b, k)
  }

  predicate Holds(pc: PC) {
    pc.StopRead? || pc.IncWrite? || Pends(pc) || Examines(pc)
  }

  predicate Counted(pc: PC) {
    pc.Dec? || pc.Copy? || pc.StopRead? || pc.StopEmpty?
  }

  predicate IsReader(s: State, t: int, b: int) {
    0 <= t < |s.workers| && Counted(s.workers[t].pc) && s.workers[t].readBucket == b
  }

  function Readers(s: State, b: int): set<int> {
    set t | 0 <= t < |s.workers| && IsReader(s, t, b)
  }

  /** Slot k of bucket b holds a live block. */
  predicate LiveAt(j: Job, s: State, b: int, k: int) {
    0 <= k < |s.cells| && IsBlock(j, s.cells[k]) && s.cells[k] < |s.loc| && s.loc[s.cells[k]] == At(b, k)
  }

  predicate Unprocessed(s: State, b: int, k: int) {
    0 <= b < |s.buckets| && s.buckets[b].w <= k <= s.buckets[b].r
  }

  predicate Passed(j: Job, s: State, b: int, k: int) {
    0 <= b < |s.buckets| && b < |j.start| && j.start[b] <= k < s.buckets[b].w
  }

  /** Slot k of bucket b has its final block; slot number `slots` stands for the overflow buffer. */
  predicate SettledAt(j: Job, s: State, b: int, k: int) {
    if k < j.slots then LiveAt(j, s, b, k) && j.cls[s.cells[k]] == b
    else
      && k == j.slots && 0 <= s.overflowOf < |s.workers|
      && OfClass(j, s.workers[s.overflowOf].overflow, b)
  }

  /** Bucket b comes so many buckets after `from`, cyclically. */
  function Dist(j: Job, b: int, from: int): int {
    if b >= from then b - from else b - from + |j.start| - 1
  }

  // ----- the invariant -----

  /** The layout the classification phase leaves: regions in order, each with room for all blocks of
      its class; together they end at most one block past the complete blocks. */
  ghost predicate JobOk(j: Job) {
    && 2 <= |j.start| && 0 <= j.start[0] && j.start[|j.start| - 1] <= j.slots + 1
    && 1 <= j.workers
    && (forall id :: 0 <= id < |j.cls| ==> IsBucket(j, j.cls[id]))
    && (forall b :: IsBucket(j, b) ==> j.start[b] + Quota(j, b) <= j.start[b + 1])
  }

  ghost predicate Shape(j: Job, s: State) {
    && JobOk(j)
    && |s.cells| == j.slots && |s.buckets| == |j.start| - 1 && |s.workers| == j.workers && |s.loc| == |j.cls|
    && (forall b :: IsBucket(j, b) ==>
          && j.start[b] <= s.buckets[b].w <= j.start[b] + Quota(j, b)
          && s.buckets[b].r < j.start[b + 1] && s.buckets[b].r < j.slots)
  }

  ghost predicate UnprocessedLive(j: Job, s: State) {
    forall b, k :: Unprocessed(s, b, k) ==> LiveAt(j, s, b, k)
  }

  /** What a worker knows at its program point. */
  predicate WorkerOk(j: Job, s: State, t: int)
    requires 0 <= t < |s.workers|
  {
    var x := s.workers[t];
    && IsBucket(j, x.readBucket) && x.readBucket < |s.buckets| && 0 <= x.count < |j.start|
    && (x.pc.Done? <==> x.count == 0)
    && (x.pc.Copy? ==>
          && LiveAt(j, s, x.readBucket, x.slot) && s.buckets[x.readBucket].r < x.slot
          && j.start[x.readBucket] <= x.slot < j.start[x.readBucket + 1])
    && (x.pc.StopEmpty? ==> s.buckets[x.readBucket].r < s.buckets[x.readBucket].w)
    && (Holds(x.pc) ==> IsBlock(j, Buf(x)) && Buf(x) < |s.loc| && s.loc[Buf(x)] == Buffer(t))
    && (Holds(x.pc) && !x.pc.StopRead? ==> IsBucket(j, x.dest) && x.dest < |s.buckets| && j.cls[Buf(x)] == x.dest)
    && (Pends(x.pc) || Examines(x.pc) ==> Passed(j, s, x.dest, x.slot) && 0 <= x.slot)
    && (Pends(x.pc) ==> s.buckets[x.dest].r < x.slot && (x.pc.Spill? <==> x.slot >= j.slots))
    && (Examines(x.pc) ==> LiveAt(j, s, x.dest, x.slot))
    && (x.pc.TakeOut? || x.pc.PutIn? ==> j.cls[s.cells[x.slot]] == x.newDest && x.newDest != x.dest)
    && (x.pc.PutIn? ==> OtherBuf(x) == s.cells[x.slot])
  }

  /** Every block is where `loc` says. */
  ghost predicate LocOk(j: Job, s: State, id: int)
    requires 0 <= id < |s.loc|
  {
    match s.loc[id]
    case At(b, k) =>
      && IsBucket(j, b) && b < |s.buckets| && 0 <= k && j.start[b] <= k < |s.cells| && s.cells[k] == id
      && (|| Unprocessed(s, b, k)
          || (exists t :: ReadClaim(s, t, b, k))
          || (k < s.buckets[b].w && OfClass(j, id, b))
          || (exists t :: ExamineClaim(s, t, b, k)))
    case Buffer(t) => 0 <= t < |s.workers| && Holds(s.workers[t].pc) && Buf(s.workers[t]) == id
    case Spilled(t) => 0 <= t < |s.workers| && t == s.overflowOf && s.workers[t].overflow == id
  }

  /** Every slot a write pointer has passed has its final block or is claimed by a worker. */
  ghost predicate PassedOk(j: Job, s: State) {
    forall b, k :: Passed(j, s, b, k) ==> SettledAt(j, s, b, k) || exists t :: WriteClaim(s, t, b, k)
  }

  /** Claims are exclusive, and nobody reads a slot that is about to be stored to. */
  ghost predicate ClaimsApart(s: State) {
    && (forall t, u, b, k :: t != u && WriteClaim(s, t, b, k) ==> !WriteClaim(s, u, b, k))
    && (forall t, u, b, k :: t != u && ReadClaim(s, t, b, k) ==> !ReadClaim(s, u, b, k))
    && (forall t, u, b, k, e :: ReadClaim(s, t, b, k) && ExamineClaim(s, u, b, e) ==> e < k)
    && (forall t, u, b, k :: PendClaim(s, t, b, k) && s.workers[t].pc.Store? ==> !ReadClaim(s, u, b, k))
  }

  /** A slot that a writer claimed as empty is live exactly as long as some reader has not copied it. */
  ghost predicate EmptySlots(j: Job, s: State) {
    && (forall t, b, k :: ReadClaim(s, t, b, k) && Passed(j, s, b, k) ==> exists u :: PendClaim(s, u, b, k))
    && (forall t, b, k :: PendClaim(s, t, b, k) && LiveAt(j, s, b, k) ==> exists u :: ReadClaim(s, u, b, k))
  }

  ghost predicate ReadersOk(j: Job, s: State) {
    forall b :: IsBucket(j, b) && b < |s.buckets| ==> s.buckets[b].reading == |Readers(s, b)|
  }

  /** The buckets a worker has done with are empty. */
  ghost predicate VisitedEmpty(j: Job, s: State) {
    forall t, b :: 0 <= t < |s.workers| && IsBucket(j, b) && b < |s.buckets| ==>
      VisitedBy(j, s.workers[t], b) ==> s.buckets[b].r < s.buckets[b].w
  }

  predicate VisitedBy(j: Job, x: Worker, b: int) {
    Dist(j, b, x.readBucket) >= x.count
  }

  ghost predicate OverflowOk(j: Job, s: State) {
    && (s.overflowOf >= 0 ==>
          && s.overflowOf < |s.workers|
          && var id := s.workers[s.overflowOf].overflow;
             && IsBlock(j, id) && id < |s.loc| && s.loc[id] == Spilled(s.overflowOf)
             && IsBucket(j, j.cls[id]) && j.cls[id] < |s.buckets| && s.buckets[j.cls[id]].w > j.slots)
    && (forall t :: 0 <= t < |s.workers| && s.workers[t].pc.Spill? ==> s.overflowOf < 0)
  }

  ghost predicate WorkersOk(j: Job, s: State) {
    forall t :: 0 <= t < |s.workers| ==> WorkerOk(j, s, t)
  }

  ghost predicate LocsOk(j: Job, s: State) {
    forall id :: 0 <= id < |s.loc| ==> LocOk(j, s, id)
  }

  ghost predicate Inv(j: Job, s: State) {
    && Shape(j, s) && UnprocessedLive(j, s) && WorkersOk(j, s) && LocsOk(j, s) && PassedOk(j, s)
    && ClaimsApart(s) && EmptySlots(j, s) && ReadersOk(j, s) && VisitedEmpty(j, s) && OverflowOk(j, s)
  }
}
