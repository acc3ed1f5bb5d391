/** Every step of every worker keeps the invariant of the block permutation (block_permutation.hpp). */
module BlockProof {
  import opened BlockProtocol

  // ----- counting -----

  lemma {:induction false} SubsetCard<A>(x: set<A>, y: set<A>)
    requires x <= y
    ensures |x| <= |y|
  {
    if x != {} {
      var e :| e in x;
      SubsetCard(x - {e}, y - {e});
    }
  }

  /** Distinct members of a set number at most its size. */
  lemma {:induction false} DistinctFit(q: seq<int>, x: set<int>)
    requires forall i :: 0 <= i < |q| ==> q[i] in x
    requires forall i, k :: 0 <= i < k < |q| ==> q[i] != q[k]
    ensures |q| <= |x|
  {
    if q != [] {
      var e := q[|q| - 1];
      DistinctFit(q[..|q| - 1], x - {e});
    }
  }

  /** A set all of whose members occur in a sequence is no larger than the sequence is long. */
  lemma {:induction false} OccurringFit(q: seq<int>, x: set<int>)
    requires forall e :: e in x ==> e in q
    ensures |x| <= |q|
  {
    if q != [] {
      var e := q[|q| - 1];
      forall d | d in x - {e}
        ensures d in q[..|q| - 1]
      {
      }
      OccurringFit(q[..|q| - 1], x - {e});
      assert e !in x ==> x - {e} == x;
    } else {
      assert forall e :: e !in x;
      assert x == {};
    }
  }

  // ----- regions -----

  lemma {:induction false} StartsOrdered(j: Job, b: int, c: int)
    requires JobOk(j) && 0 <= b <= c < |j.start|
    ensures j.start[b] <= j.start[c] && 0 <= j.start[b]
    decreases c
  {
    if b < c {
      assert IsBucket(j, c - 1);
      StartsOrdered(j, b, c - 1);
    } else if c > 0 {
      assert IsBucket(j, c - 1);
      StartsOrdered(j, b - 1, c - 1);
    }
  }

  /** A slot belongs to the region of one bucket only. */
  lemma OneRegion(j: Job, b: int, c: int, k: int)
    requires JobOk(j) && IsBucket(j, b) && IsBucket(j, c)
    requires j.start[b] <= k < j.start[b + 1] && j.start[c] <= k < j.start[c + 1]
    ensures b == c
  {
    if b < c {
      StartsOrdered(j, b + 1, c);
    } else if c < b {
      StartsOrdered(j, c + 1, b);
    }
  }

  // ----- steps that move no pointer and no block -----

  predicate SameBlocks(s: State, s': State) {
    && s'.cells == s.cells && s'.loc == s.loc && s'.overflowOf == s.overflowOf
    && |s'.buckets| == |s.buckets| && |s'.workers| == |s.workers|
  }

  predicate SamePointers(s: State, s': State) {
    && |s'.buckets| == |s.buckets|
    && forall b :: 0 <= b < |s.buckets| ==> s'.buckets[b].w == s.buckets[b].w && s'.buckets[b].r == s.buckets[b].r
  }

  predicate OnlyWorker(s: State, s': State, t: int) {
    && 0 <= t < |s.workers| == |s'.workers|
    && forall u :: 0 <= u < |s.workers| && u != t ==> s'.workers[u] == s.workers[u]
  }

  /** Worker t claims, holds and has spilled exactly what it did before. */
  predicate SameClaims(x: Worker, x': Worker) {
    && x'.overflow == x.overflow
    && (x'.pc.Copy? <==> x.pc.Copy?) && (x.pc.Copy? ==> x'.readBucket == x.readBucket && x'.slot == x.slot)
    && (Examines(x'.pc) <==> Examines(x.pc)) && (Pends(x'.pc) <==> Pends(x.pc))
    && (x'.pc.Spill? <==> x.pc.Spill?)
    && (Examines(x.pc) || Pends(x.pc) ==> x'.dest == x.dest && x'.slot == x.slot)
    && (Holds(x'.pc) <==> Holds(x.pc)) && (Holds(x.pc) ==> Buf(x') == Buf(x))
  }

  lemma QuietClaims(s: State, s': State, t: int)
    requires OnlyWorker(s, s', t) && SameClaims(s.workers[t], s'.workers[t])
    ensures forall u, b, k :: ReadClaim(s', u, b, k) <==> ReadClaim(s, u, b, k)
    ensures forall u, b, k :: ExamineClaim(s', u, b, k) <==> ExamineClaim(s, u, b, k)
    ensures forall u, b, k :: PendClaim(s', u, b, k) <==> PendClaim(s, u, b, k)
    ensures forall u, b, k :: WriteClaim(s', u, b, k) <==> WriteClaim(s, u, b, k)
  {
  }

  lemma QuietLocs(j: Job, s: State, s': State, t: int)
    requires LocsOk(j, s) && SameBlocks(s, s') && SamePointers(s, s')
    requires OnlyWorker(s, s', t) && SameClaims(s.workers[t], s'.workers[t])
    ensures LocsOk(j, s')
  {
    QuietClaims(s, s', t);
    forall id | 0 <= id < |s'.loc|
      ensures LocOk(j, s', id)
    {
      assert LocOk(j, s, id);
      match s.loc[id]
      case At(b, k) =>
        if u :| ReadClaim(s, u, b, k) {
          assert ReadClaim(s', u, b, k);
        }
        if u :| ExamineClaim(s, u, b, k) {
          assert ExamineClaim(s', u, b, k);
        }
      case Buffer(u) =>
      case Spilled(u) =>
    }
  }

  lemma QuietPassed(j: Job, s: State, s': State, t: int)
    requires PassedOk(j, s) && SameBlocks(s, s') && SamePointers(s, s')
    requires OnlyWorker(s, s', t) && SameClaims(s.workers[t], s'.workers[t])
    ensures PassedOk(j, s')
  {
    QuietClaims(s, s', t);
    forall b, k | Passed(j, s', b, k)
      ensures SettledAt(j, s', b, k) || exists u :: WriteClaim(s', u, b, k)
    {
      assert Passed(j, s, b, k);
      if u :| WriteClaim(s, u, b, k) {
        assert WriteClaim(s', u, b, k);
      }
    }
  }

  lemma QuietWorkers(j: Job, s: State, s': State, t: int)
    requires WorkersOk(j, s) && SameBlocks(s, s') && SamePointers(s, s')
    requires OnlyWorker(s, s', t) && WorkerOk(j, s', t)
    ensures WorkersOk(j, s')
  {
    forall u | 0 <= u < |s'.workers|
      ensures WorkerOk(j, s', u)
    {
      if u != t {
        assert WorkerOk(j, s, u);
      }
    }
  }

  lemma QuietOverflow(j: Job, s: State, s': State, t: int)
    requires OverflowOk(j, s) && SameBlocks(s, s') && SamePointers(s, s')
    requires OnlyWorker(s, s', t) && SameClaims(s.workers[t], s'.workers[t])
    ensures OverflowOk(j, s')
  {
  }

  lemma QuietApart(s: State, s': State, t: int)
    requires ClaimsApart(s) && OnlyWorker(s, s', t) && SameClaims(s.workers[t], s'.workers[t])
    requires s'.workers[t].pc.Store? && !s.workers[t].pc.Store? ==>
               forall u :: !ReadClaim(s, u, s.workers[t].dest, s.workers[t].slot)
    ensures ClaimsApart(s')
  {
    QuietClaims(s, s', t);
  }

  lemma QuietEmpty(j: Job, s: State, s': State, t: int)
    requires EmptySlots(j, s) && SameBlocks(s, s') && SamePointers(s, s')
    requires OnlyWorker(s, s', t) && SameClaims(s.workers[t], s'.workers[t])
    ensures EmptySlots(j, s')
  {
    QuietClaims(s, s', t);
    forall u, b, k | ReadClaim(s', u, b, k) && Passed(j, s', b, k)
      ensures exists q :: PendClaim(s', q, b, k)
    {
      assert ReadClaim(s, u, b, k) && Passed(j, s, b, k);
      var q :| PendClaim(s, q, b, k);
      assert PendClaim(s', q, b, k);
    }
    forall u, b, k | PendClaim(s', u, b, k) && LiveAt(j, s', b, k)
      ensures exists q :: ReadClaim(s', q, b, k)
    {
      assert PendClaim(s, u, b, k) && LiveAt(j, s, b, k);
      var q :| ReadClaim(s, q, b, k);
      assert ReadClaim(s', q, b, k);
    }
  }

  /** The part of the invariant that is about blocks, not about reading counters and visits. */
  ghost predicate BlocksOk(j: Job, s: State) {
    && Shape(j, s) && UnprocessedLive(j, s) && WorkersOk(j, s) && LocsOk(j, s) && PassedOk(j, s)
    && ClaimsApart(s) && EmptySlots(j, s) && OverflowOk(j, s)
  }

  lemma BlockParts(j: Job, s: State)
    requires BlocksOk(j, s)
    ensures Shape(j, s) && UnprocessedLive(j, s) && WorkersOk(j, s) && LocsOk(j, s) && PassedOk(j, s)
    ensures ClaimsApart(s) && EmptySlots(j, s) && OverflowOk(j, s)
  {
  }

  lemma WorkerAt(j: Job, s: State, t: int)
    requires BlocksOk(j, s) && 0 <= t < |s.workers|
    ensures Shape(j, s) && WorkerOk(j, s, t)
  {
  }

  lemma InvParts(j: Job, s: State)
    requires Inv(j, s)
    ensures BlocksOk(j, s) && ReadersOk(j, s) && VisitedEmpty(j, s)
  {
  }

  lemma InvWhole(j: Job, s: State)
    requires BlocksOk(j, s) && ReadersOk(j, s) && VisitedEmpty(j, s)
    ensures Inv(j, s)
  {
  }

  lemma QuietKeeps(j: Job, s: State, s': State, t: int)
    requires BlocksOk(j, s) && SameBlocks(s, s') && SamePointers(s, s')
    requires OnlyWorker(s, s', t) && SameClaims(s.workers[t], s'.workers[t])
    requires WorkerOk(j, s', t)
    requires s'.workers[t].pc.Store? && !s.workers[t].pc.Store? ==>
               forall u :: !ReadClaim(s, u, s.workers[t].dest, s.workers[t].slot)
    ensures BlocksOk(j, s')
  {
    QuietLocs(j, s, s', t);
    QuietPassed(j, s, s', t);
    QuietWorkers(j, s, s', t);
    QuietOverflow(j, s, s', t);
    QuietApart(s, s', t);
    QuietEmpty(j, s, s', t);
    assert forall b, k :: Unprocessed(s', b, k) <==> Unprocessed(s, b, k);
  }

  // ----- reading counters and visits -----

  lemma ReadersKept(j: Job, s: State, s': State, t: int)
    requires ReadersOk(j, s) && OnlyWorker(s, s', t) && |s'.buckets| == |s.buckets|
    requires forall b :: 0 <= b < |s.buckets| ==> s'.buckets[b].reading == s.buckets[b].reading
    requires forall b :: IsReader(s', t, b) <==> IsReader(s, t, b)
    ensures ReadersOk(j, s')
  {
    forall b | IsBucket(j, b) && b < |s'.buckets|
      ensures s'.buckets[b].reading == |Readers(s', b)|
    {
      assert forall u :: u != t ==> (IsReader(s', u, b) <==> IsReader(s, u, b));
      assert Readers(s', b) == Readers(s, b);
    }
  }

  lemma ReaderJoins(j: Job, s: State, s': State, t: int, c: int)
    requires ReadersOk(j, s) && OnlyWorker(s, s', t) && |s'.buckets| == |s.buckets| && 0 <= c < |s.buckets|
    requires s'.buckets[c].reading == s.buckets[c].reading + 1
    requires forall b :: 0 <= b < |s.buckets| && b != c ==> s'.buckets[b].reading == s.buckets[b].reading
    requires forall b :: !IsReader(s, t, b) && (IsReader(s', t, b) <==> b == c)
    ensures ReadersOk(j, s')
  {
    forall b | IsBucket(j, b) && b < |s'.buckets|
      ensures s'.buckets[b].reading == |Readers(s', b)|
    {
      assert forall u :: u != t ==> (IsReader(s', u, b) <==> IsReader(s, u, b));
      if b == c {
        assert Readers(s', b) == Readers(s, b) + {t};
      } else {
        assert Readers(s', b) == Readers(s, b);
      }
    }
  }

  lemma ReaderLeaves(j: Job, s: State, s': State, t: int, c: int)
    requires ReadersOk(j, s) && OnlyWorker(s, s', t) && |s'.buckets| == |s.buckets| && 0 <= c < |s.buckets|
    requires s'.buckets[c].reading == s.buckets[c].reading - 1
    requires forall b :: 0 <= b < |s.buckets| && b != c ==> s'.buckets[b].reading == s.buckets[b].reading
    requires forall b :: !IsReader(s', t, b) && (IsReader(s, t, b) <==> b == c)
    ensures ReadersOk(j, s')
  {
    forall b | IsBucket(j, b) && b < |s'.buckets|
      ensures s'.buckets[b].reading == |Readers(s', b)|
    {
      assert forall u :: u != t ==> (IsReader(s', u, b) <==> IsReader(s, u, b));
      if b == c {
        assert Readers(s', b) == Readers(s, b) - {t};
        assert t in Readers(s, b);
      } else {
        assert Readers(s', b) == Readers(s, b);
      }
    }
  }

  /** A bucket found empty stays empty, and a worker that stays at its bucket has visited no more. */
  lemma VisitsKept(j: Job, s: State, s': State, t: int)
    requires VisitedEmpty(j, s) && OnlyWorker(s, s', t) && |s'.buckets| == |s.buckets|
    requires forall b :: 0 <= b < |s.buckets| ==>
               s'.buckets[b].w >= s.buckets[b].w && s'.buckets[b].r <= s.buckets[b].r
    requires s'.workers[t].readBucket == s.workers[t].readBucket && s'.workers[t].count == s.workers[t].count
    ensures VisitedEmpty(j, s')
  {
    forall u, b | 0 <= u < |s'.workers| && IsBucket(j, b) && b < |s'.buckets|
      ensures VisitedBy(j, s'.workers[u], b) ==> s'.buckets[b].r < s'.buckets[b].w
    {
      assert VisitedBy(j, s'.workers[u], b) <==> VisitedBy(j, s.workers[u], b);
    }
  }

  lemma EnterKeeps(j: Job, s: State, t: int)
    requires Inv(j, s) && 0 <= t < |s.workers| && s.workers[t].pc.Enter?
    ensures 0 <= s.workers[t].readBucket < |s.buckets| && Inv(j, EnterStep(s, t))
  {
    assert WorkerOk(j, s, t);
    var s' := EnterStep(s, t);
    hide LocsOk, PassedOk, ClaimsApart, EmptySlots, UnprocessedLive;
    assert WorkerOk(j, s', t);
    QuietKeeps(j, s, s', t);
    ReaderJoins(j, s, s', t, s.workers[t].readBucket);
    VisitsKept(j, s, s', t);
  }

  lemma StopReadKeeps(j: Job, s: State, t: int)
    requires Inv(j, s) && 0 <= t < |s.workers| && s.workers[t].pc.StopRead?
    ensures StepSafe(j, s, t) && Inv(j, StopReadStep(j, s, t))
  {
    hide Inv, BlocksOk, ReadersOk, VisitedEmpty;
    InvParts(j, s);
    WorkerAt(j, s, t);
    var s' := StopReadStep(j, s, t);
    assert WorkerOk(j, s', t);
    QuietKeeps(j, s, s', t);
    ReaderLeaves(j, s, s', t, s.workers[t].readBucket);
    VisitsKept(j, s, s', t);
    InvWhole(j, s');
  }

  lemma WrapNext(k: int, n: int)
    requires 0 <= k < n
    ensures (k + 1) % n == if k + 1 == n then 0 else k + 1
  {
  }

  lemma NextVisit(j: Job, s: State, s': State, t: int)
    requires VisitedEmpty(j, s) && 0 <= t < |s.workers| && WorkerOk(j, s, t) && s.workers[t].pc.StopEmpty?
    requires |s.buckets| == |j.start| - 1 && s' == StopEmptyStep(s, t)
    ensures VisitedEmpty(j, s')
    ensures 0 <= s'.workers[t].readBucket < |s.buckets|
  {
    var x, x' := s.workers[t], s'.workers[t];
    WrapNext(x.readBucket, |s.buckets|);
    forall u, b | 0 <= u < |s'.workers| && IsBucket(j, b) && b < |s'.buckets|
      ensures VisitedBy(j, s'.workers[u], b) ==> s'.buckets[b].r < s'.buckets[b].w
    {
      if u == t && b != x.readBucket {
        assert Dist(j, b, x'.readBucket) == Dist(j, b, x.readBucket) - 1;
        assert VisitedBy(j, x', b) <==> VisitedBy(j, x, b);
      } else if u != t {
        assert VisitedBy(j, s'.workers[u], b) <==> VisitedBy(j, s.workers[u], b);
      }
    }
  }

  lemma StopEmptyKeeps(j: Job, s: State, t: int)
    requires Inv(j, s) && 0 <= t < |s.workers| && s.workers[t].pc.StopEmpty?
    ensures StepSafe(j, s, t) && Inv(j, StopEmptyStep(s, t))
  {
    hide Inv, BlocksOk, ReadersOk, VisitedEmpty;
    InvParts(j, s);
    WorkerAt(j, s, t);
    var s' := StopEmptyStep(s, t);
    NextVisit(j, s, s', t);
    assert WorkerOk(j, s', t);
    QuietKeeps(j, s, s', t);
    ReaderLeaves(j, s, s', t, s.workers[t].readBucket);
    InvWhole(j, s');
  }

  /** With no reader counted, no slot of the bucket is claimed for reading. */
  lemma NoReaderNoClaim(j: Job, s: State, b: int, u: int, k: int)
    requires ReadersOk(j, s) && IsBucket(j, b) && b < |s.buckets| && s.buckets[b].reading == 0
    ensures !ReadClaim(s, u, b, k)
  {
    assert Readers(s, b) == {};
    assert IsReader(s, u, b) ==> u in Readers(s, b);
  }

  lemma WaitKeeps(j: Job, s: State, t: int)
    requires Inv(j, s) && Enabled(j, s, t) && s.workers[t].pc.Wait?
    ensures Inv(j, WaitStep(s, t))
  {
    assert WorkerOk(j, s, t);
    var s' := WaitStep(s, t);
    forall u
      ensures !ReadClaim(s, u, s.workers[t].dest, s.workers[t].slot)
    {
      NoReaderNoClaim(j, s, s.workers[t].dest, u, s.workers[t].slot);
    }
    hide LocsOk, PassedOk, ClaimsApart, EmptySlots, UnprocessedLive;
    assert WorkerOk(j, s', t);
    QuietKeeps(j, s, s', t);
    ReadersKept(j, s, s', t);
    VisitsKept(j, s, s', t);
  }

  lemma TakeOutKeeps(j: Job, s: State, t: int)
    requires Inv(j, s) && 0 <= t < |s.workers| && s.workers[t].pc.TakeOut?
    ensures StepSafe(j, s, t) && Inv(j, TakeOutStep(s, t))
  {
    hide Inv, BlocksOk, ReadersOk, VisitedEmpty;
    InvParts(j, s);
    WorkerAt(j, s, t);
    var s' := TakeOutStep(s, t);
    assert WorkerOk(j, s', t);
    QuietKeeps(j, s, s', t);
    ReadersKept(j, s, s', t);
    VisitsKept(j, s, s', t);
    InvWhole(j, s');
  }

  // ----- examining a slot that already has the right class -----

  /** Worker t gives up its write claim because the block found belongs there. */
  lemma LeaveInPlace(j: Job, s: State, s': State, t: int)
    requires BlocksOk(j, s) && 0 <= t < |s.workers| && s.workers[t].pc.Examine?
    requires SameBlocks(s, s') && SamePointers(s, s') && OnlyWorker(s, s', t)
    requires s'.workers[t] == s.workers[t].(pc := IncWrite)
    requires SettledAt(j, s, s.workers[t].dest, s.workers[t].slot)
    requires s.workers[t].slot < j.slots
    ensures LocsOk(j, s') && PassedOk(j, s')
  {
    var b0, k0 := s.workers[t].dest, s.workers[t].slot;
    assert WorkerOk(j, s, t);
    assert forall u, b, k :: u != t ==> (WriteClaim(s', u, b, k) <==> WriteClaim(s, u, b, k));
    assert forall u, b, k :: u != t ==> (ExamineClaim(s', u, b, k) <==> ExamineClaim(s, u, b, k));
    assert forall u, b, k :: ReadClaim(s', u, b, k) <==> ReadClaim(s, u, b, k);
    forall id | 0 <= id < |s'.loc|
      ensures LocOk(j, s', id)
    {
      assert LocOk(j, s, id);
      match s.loc[id]
      case At(b, k) =>
        if u :| ReadClaim(s, u, b, k) {
          assert ReadClaim(s', u, b, k);
        }
        if u :| ExamineClaim(s, u, b, k) {
          if u != t {
            assert ExamineClaim(s', u, b, k);
          }
        }
      case Buffer(u) =>
      case Spilled(u) =>
    }
    forall b, k | Passed(j, s', b, k)
      ensures SettledAt(j, s', b, k) || exists u :: WriteClaim(s', u, b, k)
    {
      assert Passed(j, s, b, k);
      if u :| WriteClaim(s, u, b, k) {
        if u != t {
          assert WriteClaim(s', u, b, k);
        }
      }
    }
  }

  lemma DroppedClaim(s: State, s': State, t: int)
    requires ClaimsApart(s) && OnlyWorker(s, s', t)
    requires !s'.workers[t].pc.Copy? && !Examines(s'.workers[t].pc) && !Pends(s'.workers[t].pc)
    ensures ClaimsApart(s')
  {
    assert forall u, b, k :: u != t ==> (WriteClaim(s', u, b, k) <==> WriteClaim(s, u, b, k));
    assert forall u, b, k :: u != t ==> (ExamineClaim(s', u, b, k) <==> ExamineClaim(s, u, b, k));
    assert forall u, b, k :: u != t ==> (PendClaim(s', u, b, k) <==> PendClaim(s, u, b, k));
    assert forall u, b, k :: u != t ==> (ReadClaim(s', u, b, k) <==> ReadClaim(s, u, b, k));
  }

  /** Giving up an examined slot does not touch the empty ones. */
  lemma DroppedEmpty(j: Job, s: State, s': State, t: int)
    requires EmptySlots(j, s) && SameBlocks(s, s') && SamePointers(s, s') && OnlyWorker(s, s', t)
    requires Examines(s.workers[t].pc) && s'.workers[t].pc.IncWrite?
    ensures EmptySlots(j, s')
  {
    assert forall u, b, k :: ReadClaim(s', u, b, k) <==> ReadClaim(s, u, b, k);
    assert forall u, b, k :: PendClaim(s', u, b, k) <==> PendClaim(s, u, b, k);
    forall u, b, k | ReadClaim(s', u, b, k) && Passed(j, s', b, k)
      ensures exists q :: PendClaim(s', q, b, k)
    {
      assert ReadClaim(s, u, b, k) && Passed(j, s, b, k);
      var q :| PendClaim(s, q, b, k);
      assert PendClaim(s', q, b, k);
    }
    forall u, b, k | PendClaim(s', u, b, k) && LiveAt(j, s', b, k)
      ensures exists q :: ReadClaim(s', q, b, k)
    {
      assert PendClaim(s, u, b, k) && LiveAt(j, s, b, k);
      var q :| ReadClaim(s, q, b, k);
      assert ReadClaim(s', q, b, k);
    }
  }

  lemma ExamineSame(j: Job, s: State, s': State, t: int)
    requires BlocksOk(j, s) && 0 <= t < |s.workers| && s.workers[t].pc.Examine?
    requires SameBlocks(s, s') && SamePointers(s, s') && OnlyWorker(s, s', t)
    requires s'.workers[t] == s.workers[t].(pc := IncWrite)
    requires LiveAt(j, s, s.workers[t].dest, s.workers[t].slot)
    requires j.cls[s.cells[s.workers[t].slot]] == s.workers[t].dest
    ensures BlocksOk(j, s')
  {
    LeaveInPlace(j, s, s', t);
    DroppedClaim(s, s', t);
    DroppedEmpty(j, s, s', t);
    hide LocsOk, PassedOk, ClaimsApart, EmptySlots;
    assert WorkerOk(j, s, t);
    assert WorkerOk(j, s', t);
    QuietWorkers(j, s, s', t);
    assert forall b, k :: Unprocessed(s', b, k) <==> Unprocessed(s, b, k);
  }

  lemma ExamineOther(j: Job, s: State, s': State, t: int)
    requires BlocksOk(j, s) && 0 <= t < |s.workers| && s.workers[t].pc.Examine? && StepSafe(j, s, t)
    requires s' == ExamineStep(j, s, t) && j.cls[s.cells[s.workers[t].slot]] != s.workers[t].dest
    ensures BlocksOk(j, s')
  {
    hide BlocksOk;
    WorkerAt(j, s, t);
    QuietKeeps(j, s, s', t);
  }

  lemma ExamineKeeps(j: Job, s: State, t: int)
    requires Inv(j, s) && 0 <= t < |s.workers| && s.workers[t].pc.Examine?
    ensures StepSafe(j, s, t) && Inv(j, ExamineStep(j, s, t))
  {
    hide Inv, BlocksOk, ReadersOk, VisitedEmpty;
    InvParts(j, s);
    WorkerAt(j, s, t);
    var s' := ExamineStep(j, s, t);
    ReadersKept(j, s, s', t);
    VisitsKept(j, s, s', t);
    var x := s.workers[t];
    if j.cls[s.cells[x.slot]] == x.dest {
      ExamineSame(j, s, s', t);
    } else {
      ExamineOther(j, s, s', t);
    }
    InvWhole(j, s');
  }

  // ----- claiming a slot for reading -----

  /** The claims of all workers but t. */
  lemma OthersClaim(s: State, s': State, t: int)
    requires OnlyWorker(s, s', t)
    ensures forall u, b, k :: u != t ==> (ReadClaim(s', u, b, k) <==> ReadClaim(s, u, b, k))
    ensures forall u, b, k :: u != t ==> (ExamineClaim(s', u, b, k) <==> ExamineClaim(s, u, b, k))
    ensures forall u, b, k :: u != t ==> (PendClaim(s', u, b, k) <==> PendClaim(s, u, b, k))
  {
  }

  lemma DecLocs(j: Job, s: State, s': State, t: int)
    requires BlocksOk(j, s) && 0 <= t < |s.workers| && s.workers[t].pc.Dec?
    requires 0 <= s.workers[t].readBucket < |s.buckets| && s' == DecStep(s, t)
    ensures LocsOk(j, s')
  {
    OthersClaim(s, s', t);
    var c := s.workers[t].readBucket;
    forall id | 0 <= id < |s'.loc|
      ensures LocOk(j, s', id)
    {
      assert LocOk(j, s, id);
      match s.loc[id]
      case At(b, k) =>
        if Unprocessed(s, b, k) && b == c && k == s.buckets[c].r {
          assert ReadClaim(s', t, b, k);
        } else if Unprocessed(s, b, k) {
          assert Unprocessed(s', b, k);
        }
        if u :| ReadClaim(s, u, b, k) {
          assert ReadClaim(s', u, b, k);
        }
        if u :| ExamineClaim(s, u, b, k) {
          assert ExamineClaim(s', u, b, k);
        }
      case Buffer(u) =>
      case Spilled(u) =>
    }
  }

  lemma DecClaims(j: Job, s: State, s': State, t: int)
    requires BlocksOk(j, s) && 0 <= t < |s.workers| && s.workers[t].pc.Dec?
    requires 0 <= s.workers[t].readBucket < |s.buckets| && s' == DecStep(s, t)
    ensures ClaimsApart(s')
  {
    OthersClaim(s, s', t);
    forall u, b, k | u != t && ReadClaim(s', t, b, k)
      ensures !ReadClaim(s', u, b, k)
      ensures forall e :: ExamineClaim(s', u, b, e) ==> e < k
      ensures PendClaim(s', u, b, k) ==> !s'.workers[u].pc.Store?
    {
      assert 0 <= u < |s.workers| ==> WorkerOk(j, s, u);
    }
    assert forall u, b, k :: WriteClaim(s', u, b, k) <==> WriteClaim(s, u, b, k);
    assert forall b, k :: !ExamineClaim(s', t, b, k) && !PendClaim(s', t, b, k);
  }

  lemma DecEmpty(j: Job, s: State, s': State, t: int)
    requires BlocksOk(j, s) && 0 <= t < |s.workers| && s.workers[t].pc.Dec?
    requires 0 <= s.workers[t].readBucket < |s.buckets| && s' == DecStep(s, t)
    ensures EmptySlots(j, s')
  {
    OthersClaim(s, s', t);
    forall u, b, k | ReadClaim(s', u, b, k) && Passed(j, s', b, k)
      ensures exists q :: PendClaim(s', q, b, k)
    {
      assert u != t;
      assert ReadClaim(s, u, b, k) && Passed(j, s, b, k);
      var q :| PendClaim(s, q, b, k);
      assert PendClaim(s', q, b, k);
    }
    forall u, b, k | PendClaim(s', u, b, k) && LiveAt(j, s', b, k)
      ensures exists q :: ReadClaim(s', q, b, k)
    {
      assert PendClaim(s, u, b, k) && LiveAt(j, s, b, k);
      var q :| ReadClaim(s, q, b, k);
      assert ReadClaim(s', q, b, k);
    }
  }

  lemma DecPassed(j: Job, s: State, s': State, t: int)
    requires BlocksOk(j, s) && 0 <= t < |s.workers| && s.workers[t].pc.Dec?
    requires 0 <= s.workers[t].readBucket < |s.buckets| && s' == DecStep(s, t)
    ensures PassedOk(j, s')
  {
    OthersClaim(s, s', t);
    forall b, k | Passed(j, s', b, k)
      ensures SettledAt(j, s', b, k) || exists u :: WriteClaim(s', u, b, k)
    {
      assert Passed(j, s, b, k);
      if u :| WriteClaim(s, u, b, k) {
        assert WriteClaim(s', u, b, k);
      }
    }
  }

  lemma DecWorkers(j: Job, s: State, s': State, t: int)
    requires BlocksOk(j, s) && 0 <= t < |s.workers| && s.workers[t].pc.Dec?
    requires 0 <= s.workers[t].readBucket < |s.buckets| && s' == DecStep(s, t)
    ensures WorkersOk(j, s') && UnprocessedLive(j, s')
  {
    forall b, k | Unprocessed(s', b, k)
      ensures LiveAt(j, s', b, k)
    {
      assert Unprocessed(s, b, k);
    }
    forall u | 0 <= u < |s'.workers|
      ensures WorkerOk(j, s', u)
    {
      assert WorkerOk(j, s, u);
      if u == t {
        DecWorker(j, s, s', t);
      } else {
        PointersOnward(j, s, s', u);
      }
    }
  }

  /** Pointers moving on do not disturb what an idle worker knows. */
  lemma PointersOnward(j: Job, s: State, s': State, u: int)
    requires 0 <= u < |s.workers| == |s'.workers| && WorkerOk(j, s, u) && s'.workers[u] == s.workers[u]
    requires s'.cells == s.cells && s'.loc == s.loc && |s'.buckets| == |s.buckets|
    requires forall b :: 0 <= b < |s.buckets| ==>
               s'.buckets[b].w >= s.buckets[b].w && s'.buckets[b].r <= s.buckets[b].r
    ensures WorkerOk(j, s', u)
  {
  }

  lemma DecWorker(j: Job, s: State, s': State, t: int)
    requires Shape(j, s) && UnprocessedLive(j, s) && 0 <= t < |s.workers| && WorkerOk(j, s, t)
    requires s.workers[t].pc.Dec? && 0 <= s.workers[t].readBucket < |s.buckets| && s' == DecStep(s, t)
    ensures WorkerOk(j, s', t)
  {
    var c := s.workers[t].readBucket;
    if s.buckets[c].r >= s.buckets[c].w {
      assert Unprocessed(s, c, s.buckets[c].r);
    }
  }

  lemma DecKeeps(j: Job, s: State, t: int)
    requires Inv(j, s) && 0 <= t < |s.workers| && s.workers[t].pc.Dec?
    ensures StepSafe(j, s, t) && Inv(j, DecStep(s, t))
  {
    assert WorkerOk(j, s, t);
    var s' := DecStep(s, t);
    DecLocs(j, s, s', t);
    DecClaims(j, s, s', t);
    DecEmpty(j, s, s', t);
    DecPassed(j, s, s', t);
    DecWorkers(j, s, s', t);
    hide LocsOk, PassedOk, ClaimsApart, EmptySlots, UnprocessedLive, WorkersOk;
    ReadersKept(j, s, s', t);
    VisitsKept(j, s, s', t);
  }

  // ----- copying a block out -----

  lemma CopyLocs(j: Job, s: State, s': State, t: int)
    requires BlocksOk(j, s) && 0 <= t < |s.workers| && s.workers[t].pc.Copy?
    requires LiveAt(j, s, s.workers[t].readBucket, s.workers[t].slot) && s' == CopyStep(s, t)
    ensures LocsOk(j, s')
  {
    OthersClaim(s, s', t);
    var x := s.workers[t];
    forall id | 0 <= id < |s'.loc|
      ensures LocOk(j, s', id)
    {
      if id != s.cells[x.slot] {
        assert LocOk(j, s, id);
        match s.loc[id]
        case At(b, k) =>
          assert Unprocessed(s', b, k) <==> Unprocessed(s, b, k);
          if u :| ReadClaim(s, u, b, k) {
            assert u != t;
            assert ReadClaim(s', u, b, k);
          }
          if u :| ExamineClaim(s, u, b, k) {
            assert ExamineClaim(s', u, b, k);
          }
        case Buffer(u) => assert u != t;
        case Spilled(u) =>
      }
    }
  }

  lemma CopyEmpty(j: Job, s: State, s': State, t: int)
    requires BlocksOk(j, s) && 0 <= t < |s.workers| && s.workers[t].pc.Copy?
    requires LiveAt(j, s, s.workers[t].readBucket, s.workers[t].slot) && s' == CopyStep(s, t)
    ensures EmptySlots(j, s') && ClaimsApart(s')
  {
    OthersClaim(s, s', t);
    DroppedClaim(s, s', t);
    var x := s.workers[t];
    forall u, b, k | ReadClaim(s', u, b, k) && Passed(j, s', b, k)
      ensures exists q :: PendClaim(s', q, b, k)
    {
      assert ReadClaim(s, u, b, k) && Passed(j, s, b, k);
      var q :| PendClaim(s, q, b, k);
      assert PendClaim(s', q, b, k);
    }
    forall u, b, k | PendClaim(s', u, b, k) && LiveAt(j, s', b, k)
      ensures exists q :: ReadClaim(s', q, b, k)
    {
      assert PendClaim(s, u, b, k) && LiveAt(j, s, b, k);
      var q :| ReadClaim(s, q, b, k);
      assert q != t;
      assert ReadClaim(s', q, b, k);
    }
  }

  lemma CopyPassed(j: Job, s: State, s': State, t: int)
    requires BlocksOk(j, s) && 0 <= t < |s.workers| && s.workers[t].pc.Copy?
    requires LiveAt(j, s, s.workers[t].readBucket, s.workers[t].slot) && s' == CopyStep(s, t)
    ensures PassedOk(j, s')
  {
    OthersClaim(s, s', t);
    var x := s.workers[t];
    assert ReadClaim(s, t, x.readBucket, x.slot);
    forall b, k | Passed(j, s', b, k)
      ensures SettledAt(j, s', b, k) || exists u :: WriteClaim(s', u, b, k)
    {
      assert Passed(j, s, b, k);
      if b == x.readBucket && k == x.slot {
        var u :| PendClaim(s, u, b, k);
        assert WriteClaim(s', u, b, k);
      } else if u :| WriteClaim(s, u, b, k) {
        assert WriteClaim(s', u, b, k);
      } else {
        assert SettledAt(j, s, b, k);
      }
    }
  }

  /** Copying a block out of its slot leaves every other slot as live as it was. */
  lemma CopyLive(j: Job, s: State, s': State, t: int, b: int, k: int)
    requires Shape(j, s) && 0 <= t < |s.workers| && LiveAt(j, s, s.workers[t].readBucket, s.workers[t].slot)
    requires s' == CopyStep(s, t)
    requires LiveAt(j, s, b, k) && (b != s.workers[t].readBucket || k != s.workers[t].slot)
    ensures LiveAt(j, s', b, k)
  {
  }

  lemma CopyOther(j: Job, s: State, s': State, t: int, u: int)
    requires BlocksOk(j, s) && 0 <= t < |s.workers| && s.workers[t].pc.Copy?
    requires LiveAt(j, s, s.workers[t].readBucket, s.workers[t].slot) && s' == CopyStep(s, t)
    requires 0 <= u < |s.workers| && u != t
    ensures WorkerOk(j, s', u)
  {
    hide BlocksOk, LocsOk, PassedOk, EmptySlots, UnprocessedLive, OverflowOk;
    BlockParts(j, s);
    var x, y := s.workers[t], s.workers[u];
    assert WorkerOk(j, s, u);
    assert ReadClaim(s, t, x.readBucket, x.slot);
    if y.pc.Copy? {
      assert ReadClaim(s, u, y.readBucket, y.slot);
      CopyLive(j, s, s', t, y.readBucket, y.slot);
    }
    if Examines(y.pc) {
      assert ExamineClaim(s, u, y.dest, y.slot);
      CopyLive(j, s, s', t, y.dest, y.slot);
    }
  }

  lemma CopyRest(j: Job, s: State, s': State, t: int)
    requires BlocksOk(j, s) && 0 <= t < |s.workers| && s.workers[t].pc.Copy?
    requires LiveAt(j, s, s.workers[t].readBucket, s.workers[t].slot) && s' == CopyStep(s, t)
    ensures UnprocessedLive(j, s') && OverflowOk(j, s')
  {
    hide BlocksOk, LocsOk, PassedOk, EmptySlots, ClaimsApart;
    BlockParts(j, s);
    assert WorkerOk(j, s, t);
    forall b, k | Unprocessed(s', b, k)
      ensures LiveAt(j, s', b, k)
    {
      assert Unprocessed(s, b, k);
      CopyLive(j, s, s', t, b, k);
    }
  }

  lemma CopyWorkers(j: Job, s: State, s': State, t: int)
    requires BlocksOk(j, s) && 0 <= t < |s.workers| && s.workers[t].pc.Copy?
    requires LiveAt(j, s, s.workers[t].readBucket, s.workers[t].slot) && s' == CopyStep(s, t)
    ensures WorkersOk(j, s')
  {
    hide BlocksOk, LocsOk, PassedOk, EmptySlots, ClaimsApart, UnprocessedLive, OverflowOk;
    BlockParts(j, s);
    forall u | 0 <= u < |s'.workers|
      ensures WorkerOk(j, s', u)
    {
      if u != t {
        CopyOther(j, s, s', t, u);
      } else {
        assert WorkerOk(j, s, t);
      }
    }
  }

  lemma CopyKeeps(j: Job, s: State, t: int)
    requires Inv(j, s) && 0 <= t < |s.workers| && s.workers[t].pc.Copy?
    ensures StepSafe(j, s, t) && Inv(j, CopyStep(s, t))
  {
    assert WorkerOk(j, s, t);
    var s' := CopyStep(s, t);
    CopyLocs(j, s, s', t);
    CopyEmpty(j, s, s', t);
    CopyPassed(j, s, s', t);
    CopyRest(j, s, s', t);
    CopyWorkers(j, s, s', t);
    hide LocsOk, PassedOk, ClaimsApart, EmptySlots, UnprocessedLive, WorkersOk, OverflowOk;
    ReadersKept(j, s, s', t);
    VisitsKept(j, s, s', t);
  }

  // ----- claiming a slot for writing -----

  /** The block that a passed slot is charged to: the one waiting for it, or the one settled in it. */
  ghost function Charge(j: Job, s: State, b: int, k: int): int {
    if exists u :: WriteClaim(s, u, b, k) then
      var u :| WriteClaim(s, u, b, k);
      Buf(s.workers[u])
    else if 0 <= k < j.slots && k < |s.cells| then s.cells[k]
    else if 0 <= s.overflowOf < |s.workers| then s.workers[s.overflowOf].overflow
    else -1
  }

  /** Where the charged block of slot k is. */
  ghost predicate ChargePlace(s: State, b: int, k: int, l: Loc) {
    || (l.At? && l.slot == k)
    || (l.Buffer? && WriteClaim(s, l.worker, b, k))
    || l.Spilled?
  }

  lemma PassedInside(j: Job, s: State, b: int, k: int)
    requires Shape(j, s) && IsBucket(j, b) && Passed(j, s, b, k)
    ensures 0 <= k <= j.slots
  {
    StartsOrdered(j, 0, b);
    StartsOrdered(j, b + 1, |j.start| - 1);
    assert j.start[b] + Quota(j, b) <= j.start[b + 1];
  }

  /** A block waiting for slot k ... */
  lemma ChargeWaits(j: Job, s: State, b: int, k: int, u: int)
    requires BlocksOk(j, s) && WriteClaim(s, u, b, k) && IsBucket(j, b)
    ensures var e := Buf(s.workers[u]);
            e in ClassSet(j, b) && e < |s.loc| && s.loc[e] == Buffer(u)
  {
    hide BlocksOk;
    WorkerAt(j, s, u);
    assert OfClass(j, Buf(s.workers[u]), b);
  }

  /** ... or settled in it. */
  lemma ChargeSettled(j: Job, s: State, b: int, k: int)
    requires BlocksOk(j, s) && IsBucket(j, b) && SettledAt(j, s, b, k) && 0 <= k
    ensures var e := if k < j.slots then s.cells[k] else s.workers[s.overflowOf].overflow;
            e in ClassSet(j, b) && e < |s.loc| && (if k < j.slots then s.loc[e] == At(b, k) else s.loc[e].Spilled?)
  {
    hide LocsOk, PassedOk, WorkersOk, ClaimsApart, EmptySlots, UnprocessedLive;
    var e := if k < j.slots then s.cells[k] else s.workers[s.overflowOf].overflow;
    assert OfClass(j, e, b);
  }

  lemma ChargeIs(j: Job, s: State, b: int, k: int)
    requires BlocksOk(j, s) && IsBucket(j, b) && Passed(j, s, b, k)
    ensures 0 <= k <= j.slots
    ensures Charge(j, s, b, k) in ClassSet(j, b) && Charge(j, s, b, k) < |s.loc|
    ensures ChargePlace(s, b, k, s.loc[Charge(j, s, b, k)])
    ensures s.loc[Charge(j, s, b, k)].Spilled? ==> k == j.slots
  {
    hide BlocksOk, ClaimsApart, EmptySlots, UnprocessedLive, OverflowOk, WorkersOk, LocsOk, ClassSet, Quota, JobOk;
    BlockParts(j, s);
    PassedInside(j, s, b, k);
    var e := Charge(j, s, b, k);
    if u0 :| WriteClaim(s, u0, b, k) {
      var u :| WriteClaim(s, u, b, k) && e == Buf(s.workers[u]);
      ChargeWaits(j, s, b, k, u);
    } else {
      ChargeSettled(j, s, b, k);
    }
  }

  /** Different slots are charged to different blocks, and none to the block of a worker that has
      not claimed a slot yet. */
  lemma ChargesDiffer(j: Job, s: State, b: int, k: int, l: int)
    requires BlocksOk(j, s) && IsBucket(j, b) && Passed(j, s, b, k) && Passed(j, s, b, l) && k != l
    ensures Charge(j, s, b, k) != Charge(j, s, b, l)
  {
    ChargeIs(j, s, b, k);
    ChargeIs(j, s, b, l);
  }

  lemma ChargeNotHeld(j: Job, s: State, t: int, b: int, k: int)
    requires BlocksOk(j, s) && IsBucket(j, b) && Passed(j, s, b, k)
    requires 0 <= t < |s.workers| && s.workers[t].pc.IncWrite?
    ensures Charge(j, s, b, k) != Buf(s.workers[t])
  {
    ChargeIs(j, s, b, k);
    assert WorkerOk(j, s, t);
  }

  /** A worker that holds a block and is about to claim a slot for it finds room in its region. */
  lemma RoomLeft(j: Job, s: State, t: int)
    requires BlocksOk(j, s) && 0 <= t < |s.workers| && s.workers[t].pc.IncWrite?
    ensures var d := s.workers[t].dest;
            IsBucket(j, d) && d < |s.buckets| && s.buckets[d].w < j.start[d] + Quota(j, d)
  {
    assert WorkerOk(j, s, t);
    var d := s.workers[t].dest;
    var from, to := j.start[d], s.buckets[d].w;
    var q := seq(to - from, i => Charge(j, s, d, from + i)) + [Buf(s.workers[t])];
    forall i | 0 <= i < |q|
      ensures q[i] in ClassSet(j, d)
    {
      if i < to - from {
        assert Passed(j, s, d, from + i);
        ChargeIs(j, s, d, from + i);
      } else {
        assert OfClass(j, q[i], d);
      }
    }
    forall i, l | 0 <= i < l < |q|
      ensures q[i] != q[l]
    {
      assert Passed(j, s, d, from + i);
      if l < to - from {
        assert Passed(j, s, d, from + l);
        ChargesDiffer(j, s, d, from + i, from + l);
      } else {
        ChargeNotHeld(j, s, t, d, from + i);
      }
    }
    DistinctFit(q, ClassSet(j, d));
  }

  lemma IncLocs(j: Job, s: State, s': State, t: int)
    requires BlocksOk(j, s) && 0 <= t < |s.workers| && s.workers[t].pc.IncWrite?
    requires 0 <= s.workers[t].dest < |s.buckets| && s' == IncWriteStep(j, s, t)
    ensures LocsOk(j, s')
  {
    OthersClaim(s, s', t);
    var d := s.workers[t].dest;
    forall id | 0 <= id < |s'.loc|
      ensures LocOk(j, s', id)
    {
      assert LocOk(j, s, id);
      match s.loc[id]
      case At(b, k) =>
        if Unprocessed(s, b, k) && b == d && k == s.buckets[d].w {
          assert ExamineClaim(s', t, b, k);
        } else if Unprocessed(s, b, k) {
          assert Unprocessed(s', b, k);
        }
        if u :| ReadClaim(s, u, b, k) {
          assert ReadClaim(s', u, b, k);
        }
        if u :| ExamineClaim(s, u, b, k) {
          assert ExamineClaim(s', u, b, k);
        }
      case Buffer(u) =>
      case Spilled(u) =>
    }
  }

  lemma IncClaims(j: Job, s: State, s': State, t: int)
    requires BlocksOk(j, s) && 0 <= t < |s.workers| && s.workers[t].pc.IncWrite?
    requires 0 <= s.workers[t].dest < |s.buckets| && s' == IncWriteStep(j, s, t)
    ensures ClaimsApart(s')
  {
    OthersClaim(s, s', t);
    forall u, b, k | u != t && WriteClaim(s', t, b, k)
      ensures !WriteClaim(s', u, b, k)
    {
      assert 0 <= u < |s.workers| ==> WorkerOk(j, s, u);
    }
    forall u, q, b, k, e | ReadClaim(s', u, b, k) && ExamineClaim(s', q, b, e)
      ensures e < k
    {
      assert ReadClaim(s, u, b, k) && WorkerOk(j, s, u);
      assert q != t ==> ExamineClaim(s, q, b, e);
    }
    assert forall u, b, k :: u != t ==> (WriteClaim(s', u, b, k) <==> WriteClaim(s, u, b, k));
    assert forall b, k :: !ReadClaim(s', t, b, k);
    forall u, q, b, k | PendClaim(s', u, b, k) && s'.workers[u].pc.Store?
      ensures !ReadClaim(s', q, b, k)
    {
      assert PendClaim(s, u, b, k) && s.workers[u].pc.Store?;
    }
  }

  lemma IncPassed(j: Job, s: State, s': State, t: int)
    requires BlocksOk(j, s) && 0 <= t < |s.workers| && s.workers[t].pc.IncWrite?
    requires 0 <= s.workers[t].dest < |s.buckets| && s' == IncWriteStep(j, s, t)
    ensures PassedOk(j, s')
  {
    OthersClaim(s, s', t);
    forall b, k | Passed(j, s', b, k)
      ensures SettledAt(j, s', b, k) || exists u :: WriteClaim(s', u, b, k)
    {
      if b == s.workers[t].dest && k == s.buckets[b].w {
        assert WriteClaim(s', t, b, k);
      } else {
        assert Passed(j, s, b, k);
        if u :| WriteClaim(s, u, b, k) {
          assert WriteClaim(s', u, b, k);
        }
      }
    }
  }

  /** A slot claimed as empty is live only while a reader has yet to copy it. */
  lemma EmptyOrRead(j: Job, s: State, b: int, k: int)
    requires BlocksOk(j, s) && IsBucket(j, b) && b < |s.buckets| && LiveAt(j, s, b, k)
    requires k == s.buckets[b].w > s.buckets[b].r
    ensures exists u :: ReadClaim(s, u, b, k)
  {
    assert LocOk(j, s, s.cells[k]);
    assert forall u :: ExamineClaim(s, u, b, k) ==> WorkerOk(j, s, u);
  }

  lemma IncEmpty(j: Job, s: State, s': State, t: int)
    requires BlocksOk(j, s) && 0 <= t < |s.workers| && s.workers[t].pc.IncWrite?
    requires 0 <= s.workers[t].dest < |s.buckets| && s' == IncWriteStep(j, s, t)
    ensures EmptySlots(j, s')
  {
    OthersClaim(s, s', t);
    assert WorkerOk(j, s, t);
    forall u, b, k | ReadClaim(s', u, b, k) && Passed(j, s', b, k)
      ensures exists q :: PendClaim(s', q, b, k)
    {
      assert ReadClaim(s, u, b, k);
      if Passed(j, s, b, k) {
        var q :| PendClaim(s, q, b, k);
        assert PendClaim(s', q, b, k);
      } else {
        assert WorkerOk(j, s, u);
        assert PendClaim(s', t, b, k);
      }
    }
    forall u, b, k | PendClaim(s', u, b, k) && LiveAt(j, s', b, k)
      ensures exists q :: ReadClaim(s', q, b, k)
    {
      if u != t {
        assert PendClaim(s, u, b, k) && LiveAt(j, s, b, k);
      } else {
        assert LiveAt(j, s, b, k);
        EmptyOrRead(j, s, b, k);
      }
      var q :| ReadClaim(s, q, b, k);
      assert ReadClaim(s', q, b, k);
    }
  }

  lemma IncWorkers(j: Job, s: State, s': State, t: int)
    requires BlocksOk(j, s) && 0 <= t < |s.workers| && s.workers[t].pc.IncWrite?
    requires 0 <= s.workers[t].dest < |s.buckets| && s' == IncWriteStep(j, s, t)
    ensures WorkersOk(j, s') && UnprocessedLive(j, s')
  {
    forall b, k | Unprocessed(s', b, k)
      ensures LiveAt(j, s', b, k)
    {
      assert Unprocessed(s, b, k);
    }
    forall u | 0 <= u < |s'.workers|
      ensures WorkerOk(j, s', u)
    {
      assert WorkerOk(j, s, u);
      if u == t {
        IncWorker(j, s, s', t);
      } else {
        PointersOnward(j, s, s', u);
      }
    }
  }

  lemma IncWorker(j: Job, s: State, s': State, t: int)
    requires Shape(j, s) && UnprocessedLive(j, s) && 0 <= t < |s.workers| && WorkerOk(j, s, t)
    requires s.workers[t].pc.IncWrite? && 0 <= s.workers[t].dest < |s.buckets| && s' == IncWriteStep(j, s, t)
    ensures WorkerOk(j, s', t)
  {
    var d := s.workers[t].dest;
    StartsOrdered(j, 0, d);
    if s.buckets[d].w <= s.buckets[d].r {
      assert Unprocessed(s, d, s.buckets[d].w);
    }
  }

  /** Only the very last region can reach past the complete blocks, by one slot. */
  lemma LastRegion(j: Job, s: State, b: int)
    requires Shape(j, s) && IsBucket(j, b) && s.buckets[b].w >= j.slots && Quota(j, b) > 0
    requires s.buckets[b].w < j.start[b] + Quota(j, b) || s.buckets[b].w > j.slots
    ensures j.start[b] <= j.slots < j.start[b + 1] && s.buckets[b].w <= j.slots + 1
    ensures j.start[b + 1] == j.slots + 1
  {
    StartsOrdered(j, b + 1, |j.start| - 1);
    assert j.start[b] + Quota(j, b) <= j.start[b + 1];
  }

  lemma ClassNonEmpty(j: Job, id: int, b: int)
    requires OfClass(j, id, b)
    ensures Quota(j, b) > 0
  {
    assert id in ClassSet(j, b);
  }

  lemma IncOverflow(j: Job, s: State, s': State, t: int)
    requires BlocksOk(j, s) && 0 <= t < |s.workers| && s.workers[t].pc.IncWrite?
    requires 0 <= s.workers[t].dest < |s.buckets| && s' == IncWriteStep(j, s, t)
    ensures OverflowOk(j, s')
  {
    var d := s.workers[t].dest;
    assert WorkerOk(j, s, t);
    if s'.workers[t].pc.Spill? && s.overflowOf >= 0 {
      RoomLeft(j, s, t);
      var c := j.cls[s.workers[s.overflowOf].overflow];
      ClassNonEmpty(j, s.workers[s.overflowOf].overflow, c);
      ClassNonEmpty(j, Buf(s.workers[t]), d);
      LastRegion(j, s, c);
      LastRegion(j, s, d);
      OneRegion(j, c, d, j.slots);
    }
  }

  lemma IncWriteKeeps(j: Job, s: State, t: int)
    requires Inv(j, s) && 0 <= t < |s.workers| && s.workers[t].pc.IncWrite?
    ensures StepSafe(j, s, t) && Inv(j, IncWriteStep(j, s, t))
  {
    assert WorkerOk(j, s, t);
    var s' := IncWriteStep(j, s, t);
    RoomLeft(j, s, t);
    IncLocs(j, s, s', t);
    IncClaims(j, s, s', t);
    IncEmpty(j, s, s', t);
    IncPassed(j, s, s', t);
    IncWorkers(j, s, s', t);
    IncOverflow(j, s, s', t);
    hide LocsOk, PassedOk, ClaimsApart, EmptySlots, UnprocessedLive, WorkersOk, OverflowOk;
    ReadersKept(j, s, s', t);
    VisitsKept(j, s, s', t);
  }

  // ----- spilling and storing -----

  lemma SpillLocs(j: Job, s: State, s': State, t: int)
    requires BlocksOk(j, s) && 0 <= t < |s.workers| && s.workers[t].pc.Spill?
    requires 0 <= Buf(s.workers[t]) < |s.loc| && s' == SpillStep(s, t)
    ensures LocsOk(j, s') && UnprocessedLive(j, s')
  {
    OthersClaim(s, s', t);
    assert WorkerOk(j, s, t);
    forall id | 0 <= id < |s'.loc|
      ensures LocOk(j, s', id)
    {
      if id != Buf(s.workers[t]) {
        assert LocOk(j, s, id);
        match s.loc[id]
        case At(b, k) =>
          assert Unprocessed(s', b, k) <==> Unprocessed(s, b, k);
          if u :| ReadClaim(s, u, b, k) {
            assert ReadClaim(s', u, b, k);
          }
          if u :| ExamineClaim(s, u, b, k) {
            assert ExamineClaim(s', u, b, k);
          }
        case Buffer(u) => assert u != t;
        case Spilled(u) =>
      }
    }
    forall b, k | Unprocessed(s', b, k)
      ensures LiveAt(j, s', b, k)
    {
      assert Unprocessed(s, b, k);
      assert LiveAt(j, s, b, k);
    }
  }

  /** All workers about to spill would spill the same slot, so there is only one. */
  lemma SpillAlone(j: Job, s: State, t: int, u: int)
    requires BlocksOk(j, s) && 0 <= t < |s.workers| && 0 <= u < |s.workers| && t != u
    requires s.workers[t].pc.Spill?
    ensures !s.workers[u].pc.Spill? && s.workers[t].slot == j.slots
  {
    SpillSlot(j, s, t);
    if s.workers[u].pc.Spill? {
      SpillSlot(j, s, u);
      OneRegion(j, s.workers[t].dest, s.workers[u].dest, j.slots);
      assert WriteClaim(s, t, s.workers[t].dest, j.slots);
      assert WriteClaim(s, u, s.workers[t].dest, j.slots);
    }
  }

  lemma SpillSlot(j: Job, s: State, t: int)
    requires BlocksOk(j, s) && 0 <= t < |s.workers| && s.workers[t].pc.Spill?
    ensures var x := s.workers[t];
            && IsBucket(j, x.dest) && x.dest < |s.buckets| && x.slot == j.slots
            && j.start[x.dest] <= j.slots < j.start[x.dest + 1] && s.buckets[x.dest].w > j.slots
  {
    assert WorkerOk(j, s, t);
    var d := s.workers[t].dest;
    ClassNonEmpty(j, Buf(s.workers[t]), d);
    LastRegion(j, s, d);
  }

  lemma SpillRest(j: Job, s: State, s': State, t: int)
    requires BlocksOk(j, s) && 0 <= t < |s.workers| && s.workers[t].pc.Spill?
    requires 0 <= Buf(s.workers[t]) < |s.loc| && s' == SpillStep(s, t)
    ensures PassedOk(j, s') && EmptySlots(j, s')
  {
    OthersClaim(s, s', t);
    assert WorkerOk(j, s, t);
    SpillSlot(j, s, t);
    forall b, k | Passed(j, s', b, k)
      ensures SettledAt(j, s', b, k) || exists u :: WriteClaim(s', u, b, k)
    {
      assert Passed(j, s, b, k);
      if u :| WriteClaim(s, u, b, k) {
        if u != t {
          assert WriteClaim(s', u, b, k);
        }
      } else {
        assert SettledAt(j, s, b, k);
      }
    }
    forall u, b, k | ReadClaim(s', u, b, k) && Passed(j, s', b, k)
      ensures exists q :: PendClaim(s', q, b, k)
    {
      assert ReadClaim(s, u, b, k) && Passed(j, s, b, k);
      assert WorkerOk(j, s, u);
      var q :| PendClaim(s, q, b, k);
      assert q != t;
      assert PendClaim(s', q, b, k);
    }
    forall u, b, k | PendClaim(s', u, b, k) && LiveAt(j, s', b, k)
      ensures exists q :: ReadClaim(s', q, b, k)
    {
      assert PendClaim(s, u, b, k) && LiveAt(j, s, b, k);
      var q :| ReadClaim(s, q, b, k);
      assert ReadClaim(s', q, b, k);
    }
  }

  lemma SpillOther(j: Job, s: State, s': State, t: int, u: int)
    requires BlocksOk(j, s) && 0 <= t < |s.workers| && s.workers[t].pc.Spill?
    requires 0 <= Buf(s.workers[t]) < |s.loc| && s' == SpillStep(s, t)
    requires 0 <= u < |s.workers| && u != t
    ensures WorkerOk(j, s', u) && !s'.workers[u].pc.Spill?
  {
    hide BlocksOk, WorkersOk, LocsOk, PassedOk, ClaimsApart, EmptySlots, UnprocessedLive, OverflowOk;
    WorkerAt(j, s, t);
    WorkerAt(j, s, u);
    SpillAlone(j, s, t, u);
  }

  lemma SpillWorkers(j: Job, s: State, s': State, t: int)
    requires BlocksOk(j, s) && 0 <= t < |s.workers| && s.workers[t].pc.Spill?
    requires 0 <= Buf(s.workers[t]) < |s.loc| && s' == SpillStep(s, t)
    ensures WorkersOk(j, s') && OverflowOk(j, s')
  {
    hide BlocksOk, LocsOk, PassedOk, EmptySlots, UnprocessedLive, ClaimsApart, LiveAt;
    WorkerAt(j, s, t);
    SpillSlot(j, s, t);
    forall u | 0 <= u < |s'.workers|
      ensures WorkerOk(j, s', u) && !s'.workers[u].pc.Spill?
    {
      if u != t {
        SpillOther(j, s, s', t, u);
      }
    }
  }

  lemma SpillKeeps(j: Job, s: State, t: int)
    requires Inv(j, s) && 0 <= t < |s.workers| && s.workers[t].pc.Spill?
    ensures StepSafe(j, s, t) && Inv(j, SpillStep(s, t))
  {
    assert WorkerOk(j, s, t);
    var s' := SpillStep(s, t);
    SpillLocs(j, s, s', t);
    SpillRest(j, s, s', t);
    SpillWorkers(j, s, s', t);
    DroppedClaim(s, s', t);
    hide LocsOk, PassedOk, ClaimsApart, EmptySlots, UnprocessedLive, WorkersOk, OverflowOk;
    ReadersKept(j, s, s', t);
    VisitsKept(j, s, s', t);
  }

  /** A slot that is stored to is live for nobody: it is no longer being read. */
  lemma StoreSlotDead(j: Job, s: State, t: int, id: int)
    requires BlocksOk(j, s) && 0 <= t < |s.workers| && s.workers[t].pc.Store? && 0 <= id < |s.loc|
    ensures s.loc[id] != At(s.workers[t].dest, s.workers[t].slot)
  {
    var b, k := s.workers[t].dest, s.workers[t].slot;
    assert WorkerOk(j, s, t);
    assert PendClaim(s, t, b, k);
    if s.loc[id] == At(b, k) {
      assert LocOk(j, s, id);
      assert LiveAt(j, s, b, k);
    }
  }

  /** Slots of other buckets with the same number do not exist. */
  lemma SlotBucket(j: Job, s: State, t: int, id: int, b: int, k: int)
    requires Shape(j, s) && LocsOk(j, s) && WorkersOk(j, s) && ClaimsApart(s)
    requires 0 <= t < |s.workers| && (Examines(s.workers[t].pc) || Pends(s.workers[t].pc))
    requires 0 <= id < |s.loc| && s.loc[id] == At(b, k) && k == s.workers[t].slot
    ensures b == s.workers[t].dest
  {
    assert WorkerOk(j, s, t);
    assert LocOk(j, s, id);
    forall u | ReadClaim(s, u, b, k) || ExamineClaim(s, u, b, k)
      ensures k < j.start[b + 1]
    {
      assert WorkerOk(j, s, u);
      assert j.start[b] + Quota(j, b) <= j.start[b + 1];
    }
    assert j.start[b] + Quota(j, b) <= j.start[b + 1];
    var d := s.workers[t].dest;
    assert j.start[d] + Quota(j, d) <= j.start[d + 1];
    OneRegion(j, b, d, k);
  }

  lemma StoreLocs(j: Job, s: State, s': State, t: int)
    requires BlocksOk(j, s) && 0 <= t < |s.workers| && s.workers[t].pc.Store?
    requires StepSafe(j, s, t) && s' == StoreStep(s, t)
    ensures LocsOk(j, s')
  {
    OthersClaim(s, s', t);
    assert WorkerOk(j, s, t);
    forall id | 0 <= id < |s'.loc|
      ensures LocOk(j, s', id)
    {
      if id != Buf(s.workers[t]) {
        assert LocOk(j, s, id);
        match s.loc[id]
        case At(b, k) =>
          if k == s.workers[t].slot {
            SlotBucket(j, s, t, id, b, k);
            StoreSlotDead(j, s, t, id);
          }
          assert Unprocessed(s', b, k) <==> Unprocessed(s, b, k);
          if u :| ReadClaim(s, u, b, k) {
            assert ReadClaim(s', u, b, k);
          }
          if u :| ExamineClaim(s, u, b, k) {
            assert ExamineClaim(s', u, b, k);
          }
        case Buffer(u) => assert u != t;
        case Spilled(u) =>
      }
    }
  }

  /** Everything live other than in the slot stored to stays live. */
  lemma StoreLive(j: Job, s: State, s': State, t: int, b: int, k: int)
    requires BlocksOk(j, s) && 0 <= t < |s.workers| && s.workers[t].pc.Store?
    requires StepSafe(j, s, t) && s' == StoreStep(s, t)
    ensures LiveAt(j, s, b, k) ==> LiveAt(j, s', b, k) && s'.cells[k] == s.cells[k]
    ensures LiveAt(j, s', b, k) ==>
              LiveAt(j, s, b, k) || (b == s.workers[t].dest && k == s.workers[t].slot)
  {
    assert WorkerOk(j, s, t);
    if LiveAt(j, s, b, k) && k == s.workers[t].slot {
      SlotBucket(j, s, t, s.cells[k], b, k);
      StoreSlotDead(j, s, t, s.cells[k]);
    }
  }

  lemma StoreRest(j: Job, s: State, s': State, t: int)
    requires BlocksOk(j, s) && 0 <= t < |s.workers| && s.workers[t].pc.Store?
    requires StepSafe(j, s, t) && s' == StoreStep(s, t)
    ensures PassedOk(j, s') && EmptySlots(j, s')
  {
    OthersClaim(s, s', t);
    assert WorkerOk(j, s, t);
    assert PendClaim(s, t, s.workers[t].dest, s.workers[t].slot);
    forall b, k | Passed(j, s', b, k)
      ensures SettledAt(j, s', b, k) || exists u :: WriteClaim(s', u, b, k)
    {
      assert Passed(j, s, b, k);
      StoreLive(j, s, s', t, b, k);
      if u :| WriteClaim(s, u, b, k) {
        if u != t {
          assert WriteClaim(s', u, b, k);
        } else {
          assert LiveAt(j, s', b, k);
        }
      } else {
        assert SettledAt(j, s, b, k);
      }
    }
    forall u, b, k | ReadClaim(s', u, b, k) && Passed(j, s', b, k)
      ensures exists q :: PendClaim(s', q, b, k)
    {
      assert ReadClaim(s, u, b, k) && Passed(j, s, b, k);
      var q :| PendClaim(s, q, b, k);
      assert q != t;
      assert PendClaim(s', q, b, k);
    }
    forall u, b, k | PendClaim(s', u, b, k) && LiveAt(j, s', b, k)
      ensures exists q :: ReadClaim(s', q, b, k)
    {
      assert u != t && PendClaim(s, u, b, k) && WriteClaim(s, u, b, k);
      assert WriteClaim(s, t, s.workers[t].dest, s.workers[t].slot);
      StoreLive(j, s, s', t, b, k);
      assert LiveAt(j, s, b, k);
      var q :| ReadClaim(s, q, b, k);
      assert ReadClaim(s', q, b, k);
    }
  }

  lemma StoreWorkers(j: Job, s: State, s': State, t: int)
    requires BlocksOk(j, s) && 0 <= t < |s.workers| && s.workers[t].pc.Store?
    requires StepSafe(j, s, t) && s' == StoreStep(s, t)
    ensures WorkersOk(j, s') && UnprocessedLive(j, s') && OverflowOk(j, s')
  {
    assert WorkerOk(j, s, t);
    forall b, k | Unprocessed(s', b, k)
      ensures LiveAt(j, s', b, k)
    {
      assert Unprocessed(s, b, k);
      StoreLive(j, s, s', t, b, k);
    }
    forall u | 0 <= u < |s'.workers|
      ensures WorkerOk(j, s', u)
    {
      assert WorkerOk(j, s, u);
      if u != t {
        StoreOther(j, s, s', t, u);
      }
    }
  }

  lemma StoreOther(j: Job, s: State, s': State, t: int, u: int)
    requires BlocksOk(j, s) && 0 <= t < |s.workers| && s.workers[t].pc.Store?
    requires StepSafe(j, s, t) && s' == StoreStep(s, t)
    requires 0 <= u < |s.workers| && u != t
    ensures WorkerOk(j, s', u)
  {
    assert WorkerOk(j, s, t) && WorkerOk(j, s, u);
    StoreLive(j, s, s', t, s.workers[u].readBucket, s.workers[u].slot);
    StoreLive(j, s, s', t, s.workers[u].dest, s.workers[u].slot);
  }

  lemma StoreKeeps(j: Job, s: State, t: int)
    requires Inv(j, s) && 0 <= t < |s.workers| && s.workers[t].pc.Store?
    ensures StepSafe(j, s, t) && Inv(j, StoreStep(s, t))
  {
    assert WorkerOk(j, s, t);
    var s' := StoreStep(s, t);
    StoreLocs(j, s, s', t);
    StoreRest(j, s, s', t);
    StoreWorkers(j, s, s', t);
    DroppedClaim(s, s', t);
    hide LocsOk, PassedOk, ClaimsApart, EmptySlots, UnprocessedLive, WorkersOk, OverflowOk;
    ReadersKept(j, s, s', t);
    VisitsKept(j, s, s', t);
  }

  // ----- exchanging a block -----

  /** Everything live other than in the slot exchanged stays live. */
  lemma PutInLive(j: Job, s: State, s': State, t: int, b: int, k: int)
    requires BlocksOk(j, s) && 0 <= t < |s.workers| && s.workers[t].pc.PutIn?
    requires StepSafe(j, s, t) && s' == PutInStep(s, t)
    ensures LiveAt(j, s, b, k) && !(b == s.workers[t].dest && k == s.workers[t].slot) ==>
              k != s.workers[t].slot && LiveAt(j, s', b, k) && s'.cells[k] == s.cells[k]
    ensures LiveAt(j, s', b, k) ==>
              LiveAt(j, s, b, k) || (b == s.workers[t].dest && k == s.workers[t].slot)
  {
    assert WorkerOk(j, s, t);
    if LiveAt(j, s, b, k) && k == s.workers[t].slot {
      SlotBucket(j, s, t, s.cells[k], b, k);
    }
  }

  lemma PutInLocs(j: Job, s: State, s': State, t: int)
    requires BlocksOk(j, s) && 0 <= t < |s.workers| && s.workers[t].pc.PutIn?
    requires StepSafe(j, s, t) && s' == PutInStep(s, t)
    ensures LocsOk(j, s')
  {
    OthersClaim(s, s', t);
    assert WorkerOk(j, s, t);
    forall id | 0 <= id < |s'.loc|
      ensures LocOk(j, s', id)
    {
      if id != Buf(s.workers[t]) && id != s.cells[s.workers[t].slot] {
        assert LocOk(j, s, id);
        match s.loc[id]
        case At(b, k) =>
          assert k != s.workers[t].slot;
          assert Unprocessed(s', b, k) <==> Unprocessed(s, b, k);
          if u :| ReadClaim(s, u, b, k) {
            assert ReadClaim(s', u, b, k);
          }
          if u :| ExamineClaim(s, u, b, k) {
            assert u != t;
            assert ExamineClaim(s', u, b, k);
          }
        case Buffer(u) => assert u != t;
        case Spilled(u) =>
      }
    }
  }

  lemma PutInRest(j: Job, s: State, s': State, t: int)
    requires BlocksOk(j, s) && 0 <= t < |s.workers| && s.workers[t].pc.PutIn?
    requires StepSafe(j, s, t) && s' == PutInStep(s, t)
    ensures PassedOk(j, s') && EmptySlots(j, s')
  {
    OthersClaim(s, s', t);
    assert WorkerOk(j, s, t);
    assert ExamineClaim(s, t, s.workers[t].dest, s.workers[t].slot);
    assert WriteClaim(s, t, s.workers[t].dest, s.workers[t].slot);
    forall b, k | Passed(j, s', b, k)
      ensures SettledAt(j, s', b, k) || exists u :: WriteClaim(s', u, b, k)
    {
      assert Passed(j, s, b, k);
      PutInLive(j, s, s', t, b, k);
      if u :| WriteClaim(s, u, b, k) {
        if u != t {
          assert WriteClaim(s', u, b, k);
        } else {
          assert LiveAt(j, s', b, k);
        }
      } else {
        assert SettledAt(j, s, b, k);
      }
    }
    forall u, b, k | ReadClaim(s', u, b, k) && Passed(j, s', b, k)
      ensures exists q :: PendClaim(s', q, b, k)
    {
      assert ReadClaim(s, u, b, k) && Passed(j, s, b, k);
      var q :| PendClaim(s, q, b, k);
      assert q != t;
      assert PendClaim(s', q, b, k);
    }
    forall u, b, k | PendClaim(s', u, b, k) && LiveAt(j, s', b, k)
      ensures exists q :: ReadClaim(s', q, b, k)
    {
      assert u != t && PendClaim(s, u, b, k) && WriteClaim(s, u, b, k);
      PutInLive(j, s, s', t, b, k);
      assert LiveAt(j, s, b, k);
      var q :| ReadClaim(s, q, b, k);
      assert ReadClaim(s', q, b, k);
    }
  }

  lemma PutInWorkers(j: Job, s: State, s': State, t: int)
    requires BlocksOk(j, s) && 0 <= t < |s.workers| && s.workers[t].pc.PutIn?
    requires StepSafe(j, s, t) && s' == PutInStep(s, t)
    ensures WorkersOk(j, s') && UnprocessedLive(j, s') && OverflowOk(j, s')
  {
    hide BlocksOk, LocsOk, PassedOk, EmptySlots, ClaimsApart;
    BlockParts(j, s);
    var x := s.workers[t];
    assert WorkerOk(j, s, t);
    assert ExamineClaim(s, t, x.dest, x.slot) && WriteClaim(s, t, x.dest, x.slot);
    forall b, k | Unprocessed(s', b, k)
      ensures LiveAt(j, s', b, k)
    {
      assert Unprocessed(s, b, k);
      PutInLive(j, s, s', t, b, k);
    }
    forall u | 0 <= u < |s'.workers|
      ensures WorkerOk(j, s', u)
    {
      assert WorkerOk(j, s, u);
      if u != t {
        PutInOther(j, s, s', t, u);
      } else {
        assert LocOk(j, s, s.cells[x.slot]);
      }
    }
  }

  /** The block another worker holds is not touched. */
  lemma PutInHolds(j: Job, s: State, s': State, t: int, u: int)
    requires 0 <= t < |s.workers| && WorkerOk(j, s, t) && s.workers[t].pc.PutIn?
    requires StepSafe(j, s, t) && s' == PutInStep(s, t)
    requires 0 <= u < |s.workers| && u != t && WorkerOk(j, s, u) && Holds(s.workers[u].pc)
    ensures Buf(s.workers[u]) < |s'.loc| && s'.loc[Buf(s.workers[u])] == Buffer(u)
  {
  }

  /** Nobody else reads or examines the slot a worker examines. */
  lemma ExaminedAlone(s: State, t: int, u: int)
    requires ClaimsApart(s) && 0 <= t < |s.workers| && 0 <= u < |s.workers| && u != t && Examines(s.workers[t].pc)
    ensures var x, y := s.workers[t], s.workers[u];
            && !(y.pc.Copy? && y.readBucket == x.dest && y.slot == x.slot)
            && !(Examines(y.pc) && y.dest == x.dest && y.slot == x.slot)
  {
    var x, y := s.workers[t], s.workers[u];
    assert ExamineClaim(s, t, x.dest, x.slot) && WriteClaim(s, t, x.dest, x.slot);
    assert y.pc.Copy? ==> ReadClaim(s, u, y.readBucket, y.slot);
    assert Examines(y.pc) ==> ExamineClaim(s, u, y.dest, y.slot) && WriteClaim(s, u, y.dest, y.slot);
  }

  lemma PutInOther(j: Job, s: State, s': State, t: int, u: int)
    requires BlocksOk(j, s) && 0 <= t < |s.workers| && s.workers[t].pc.PutIn?
    requires StepSafe(j, s, t) && s' == PutInStep(s, t)
    requires 0 <= u < |s.workers| && u != t
    ensures WorkerOk(j, s', u)
  {
    hide BlocksOk, WorkersOk, LocsOk, PassedOk, ClaimsApart, EmptySlots, UnprocessedLive, OverflowOk, LiveAt;
    BlockParts(j, s);
    WorkerAt(j, s, t);
    WorkerAt(j, s, u);
    ExaminedAlone(s, t, u);
    var y := s.workers[u];
    if Holds(y.pc) {
      PutInHolds(j, s, s', t, u);
    }
    if y.pc.Copy? {
      PutInLive(j, s, s', t, y.readBucket, y.slot);
    } else if Examines(y.pc) {
      PutInLive(j, s, s', t, y.dest, y.slot);
    }
  }

  lemma PutInKeeps(j: Job, s: State, t: int)
    requires Inv(j, s) && 0 <= t < |s.workers| && s.workers[t].pc.PutIn?
    ensures StepSafe(j, s, t) && Inv(j, PutInStep(s, t))
  {
    assert WorkerOk(j, s, t);
    var s' := PutInStep(s, t);
    PutInLocs(j, s, s', t);
    PutInRest(j, s, s', t);
    PutInWorkers(j, s, s', t);
    DroppedClaim(s, s', t);
    hide LocsOk, PassedOk, ClaimsApart, EmptySlots, UnprocessedLive, WorkersOk, OverflowOk;
    ReadersKept(j, s, s', t);
    VisitsKept(j, s, s', t);
  }
}
