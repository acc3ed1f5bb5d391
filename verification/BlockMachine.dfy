/** The imperative form of block_permutation.hpp and bucket_pointers.hpp: bucket pointers as objects
    changed by atomic methods, the array of blocks changed in place, and the whole permutation under
    an arbitrary scheduler. */
module BlockMachine {
  import opened BlockProtocol
  import opened BlockPermutation
  import BlockProof

  /** The write and read pointer of a bucket (changed together, atomically) and its reading counter.
      Pointers are counted in blocks. */
  class BucketPointers {
    var w: int
    var r: int
    var numReading: int

    constructor (w: int, r: int)
      ensures this.w == w && this.r == r && numReading == 0
    {
      this.w, this.r := w, r;
      numReading := 0;
    }

    method IncWrite() returns (write: int, read: int)
      modifies this`w
      ensures write == old(w) && read == r && w == old(w) + 1
    {
      write, read := w, r;
      w := w + 1;
    }

    /** The first half of decRead: the reading counter goes up before the pointer is taken. */
    method StartRead()
      modifies this`numReading
      ensures numReading == old(numReading) + 1
    {
      numReading := numReading + 1;
    }

    /** The second half of decRead. */
    method DecRead() returns (write: int, read: int)
      modifies this`r
      ensures write == w && read == old(r) && r == old(r) - 1
    {
      write, read := w, r;
      r := r - 1;
    }

    method StopRead()
      modifies this`numReading
      ensures numReading == old(numReading) - 1
    {
      numReading := numReading - 1;
    }

    predicate IsReading()
      reads this`numReading
    {
      numReading != 0
    }

    ghost function View(): Bucket
      reads this
    {
      Bucket(w, r, numReading)
    }
  }

  class Sorter {
    const j: Job
    const blocks: array<int>
    const pointers: seq<BucketPointers>
    var workers: seq<Worker>
    var overflowOf: int
    ghost var loc: seq<Loc>

    ghost predicate Valid()
      reads this
    {
      forall b, c :: 0 <= b < c < |pointers| ==> pointers[b] != pointers[c]
    }

    ghost function View(): State
      reads this, blocks, pointers
    {
      State(blocks[..], seq(|pointers|, b requires 0 <= b < |pointers| reads this, pointers => pointers[b].View()),
            workers, overflowOf, loc)
    }

    constructor (j: Job, blocks: array<int>, pointers: seq<BucketPointers>, ghost home: seq<Loc>)
      requires 1 <= j.workers && 2 <= |j.start| == |pointers| + 1
      requires forall b, c :: 0 <= b < c < |pointers| ==> pointers[b] != pointers[c]
      requires forall b :: 0 <= b < |pointers| ==> pointers[b].w == j.start[b] && pointers[b].numReading == 0
      ensures Valid() && this.j == j && this.blocks == blocks && this.pointers == pointers
      ensures View() == Begun(j, blocks[..], seq(|pointers|, b requires 0 <= b < |pointers| reads pointers => pointers[b].r), home)
    {
      this.j, this.blocks, this.pointers := j, blocks, pointers;
      workers := seq(j.workers, t => FreshWorker(t, j.workers, |pointers|));
      overflowOf := -1;
      loc := home;
    }

    method ReadMove(t: int)
      requires Valid() && StepSafe(j, View(), t) && Reads(workers[t].pc)
      modifies this, pointers
      ensures Valid() && View() == ReadStep(j, old(View()), t)
    {
      var x := workers[t];
      var bp := pointers[x.readBucket];
      if x.pc.Enter? {
        bp.StartRead();
        workers := workers[t := x.(pc := Dec)];
      } else if x.pc.Dec? {
        var write, read := bp.DecRead();
        workers := workers[t := x.(pc := if read < write then StopEmpty else Copy, slot := read)];
      } else if x.pc.Copy? {
        var block := blocks[x.slot];
        loc := loc[block := Buffer(t)];
        workers := workers[t := x.(pc := StopRead, cur := false, swap0 := block)];
      } else if x.pc.StopRead? {
        bp.StopRead();
        workers := workers[t := x.(pc := IncWrite, dest := j.cls[Buf(x)])];
      } else {
        bp.StopRead();
        workers := workers[t := x.(pc := if x.count == 1 then Done else Enter, count := x.count - 1,
                                   readBucket := (x.readBucket + 1) % |pointers|)];
      }
    }

    method ClaimMove(t: int)
      requires Valid() && StepSafe(j, View(), t) && workers[t].pc.IncWrite?
      modifies this`workers, pointers
      ensures Valid() && View() == IncWriteStep(j, old(View()), t)
    {
      var x := workers[t];
      var write, read := pointers[x.dest].IncWrite();
      var pc := Examine;
      if write > read {
        pc := if write >= j.slots then Spill else Wait;
      }
      workers := workers[t := x.(pc := pc, slot := write)];
    }

    method WriteMove(t: int)
      requires Valid() && StepSafe(j, View(), t) && !Reads(workers[t].pc) && !workers[t].pc.IncWrite?
      modifies this, blocks
      ensures Valid() && View() == WriteStep(j, old(View()), t)
    {
      var x := workers[t];
      if x.pc.Spill? {
        overflowOf := t;
        loc := loc[Buf(x) := Spilled(t)];
        workers := workers[t := x.(pc := Enter, overflow := Buf(x))];
      } else if x.pc.Wait? {
        workers := workers[t := x.(pc := Store)];
      } else if x.pc.Store? {
        blocks[x.slot] := Buf(x);
        loc := loc[Buf(x) := At(x.dest, x.slot)];
        workers := workers[t := x.(pc := Enter)];
      } else if x.pc.Examine? {
        var newDest := j.cls[blocks[x.slot]];
        workers := workers[t := if newDest == x.dest then x.(pc := IncWrite) else x.(pc := TakeOut, newDest := newDest)];
      } else if x.pc.TakeOut? {
        var block := blocks[x.slot];
        workers := workers[t := if x.cur then x.(pc := PutIn, swap0 := block) else x.(pc := PutIn, swap1 := block)];
      } else if x.pc.PutIn? {
        loc := loc[blocks[x.slot] := Buffer(t)][Buf(x) := At(x.dest, x.slot)];
        blocks[x.slot] := Buf(x);
        workers := workers[t := x.(pc := IncWrite, cur := !x.cur, dest := x.newDest)];
      }
    }

    method Move(t: int)
      requires Valid() && StepSafe(j, View(), t)
      modifies this, blocks, pointers
      ensures Valid() && View() == Step(j, old(View()), t)
    {
      if Reads(workers[t].pc) {
        ReadMove(t);
      } else if workers[t].pc.IncWrite? {
        ClaimMove(t);
      } else {
        WriteMove(t);
      }
    }

    /** A worker spins only while somebody reads from its destination bucket. */
    predicate CanMove(t: int)
      requires 0 <= t < |workers|
      reads this, pointers
    {
      var x := workers[t];
      && !x.pc.Done?
      && (x.pc.Wait? ==> 0 <= x.dest < |pointers| && !pointers[x.dest].IsReading())
    }

    /** permuteBlocks by all workers, under any scheduler. */
    method PermuteBlocks()
      requires Valid() && Inv(j, View())
      modifies this, blocks, pointers
      ensures Valid() && AllDone(View()) && Permuted(j, View())
    {
      hide Inv, Step, Work, StepSafe;
      while exists t :: 0 <= t < |workers| && CanMove(t)
        invariant Valid() && Inv(j, View())
        decreases Work(View())
      {
        var t :| 0 <= t < |workers| && CanMove(t);
        WorkNatural(j, View());
        StepWorks(j, View(), t);
        StepKeeps(j, View(), t);
        Move(t);
      }
      forall t
        ensures !Enabled(j, View(), t)
      {
        assert 0 <= t < |workers| ==> !CanMove(t);
      }
      QuietIsDone(j, View());
      forall b | IsBucket(j, b)
        ensures RegionFull(j, View(), b)
      {
        RegionIsFull(j, View(), b);
      }
    }
  }

  /** The whole phase, from the layout that classification leaves to the permuted one. */
  method PermuteAll(j: Job, blocks: array<int>, pointers: seq<BucketPointers>, ghost tops: seq<int>, ghost home: seq<Loc>)
    returns (m: Sorter)
    requires Ready(j, blocks[..], tops, home) && |pointers| == |tops|
    requires forall b, c :: 0 <= b < c < |pointers| ==> pointers[b] != pointers[c]
    requires forall b :: 0 <= b < |pointers| ==> pointers[b].w == j.start[b] && pointers[b].r == tops[b] && pointers[b].numReading == 0
    modifies blocks, pointers
    ensures fresh(m) && m.j == j && m.blocks == blocks && m.pointers == pointers
    ensures AllDone(m.View()) && Permuted(j, m.View())
  {
    hide Inv, Ready;
    ReadyParts(j, blocks[..], tops, home);
    m := new Sorter(j, blocks, pointers, home);
    assert seq(|pointers|, b requires 0 <= b < |pointers| reads pointers => pointers[b].r) == tops;
    BegunInv(j, blocks[..], tops, home);
    m.PermuteBlocks();
  }

  lemma ReadyParts(j: Job, cells: seq<int>, tops: seq<int>, home: seq<Loc>)
    requires Ready(j, cells, tops, home)
    ensures 1 <= j.workers && 2 <= |j.start| == |tops| + 1
  {
  }
}
