/** The branch-free classifier of ips4o: a search tree over sorted splitters in an array. */
module Classifier {
  import opened Orders
  import opened SumTree

  // ----- what a bucket is -----

  /** Buckets are numbered by the count of splitters below the value; equal buckets split each in
      two, the odd half for values not less than the next splitter. */
  function Bucket<T(!new)>(lt: (T, T) -> bool, s: seq<T>, v: T, equalBuckets: bool): int
    requires 0 < |s|
  {
    var c := CountLess(lt, s, 0, |s|, v);
    if !equalBuckets then c
    else 2 * c + (if lt(v, if c < |s| then s[c] else s[|s| - 1]) then 0 else 1)
  }

  lemma {:induction false} CountRange<T(!new)>(lt: (T, T) -> bool, s: seq<T>, n: int, v: T)
    requires 0 <= n <= |s|
    ensures 0 <= CountLess(lt, s, 0, n, v) <= n
    decreases n
  {
    if 0 < n {
      CountRange(lt, s, n - 1, v);
    }
  }

  /** Among sorted splitters exactly the first ones are below a value. */
  lemma {:induction false} CountPrefix<T(!new)>(lt: (T, T) -> bool, s: seq<T>, n: int, v: T, i: int)
    requires StrictWeak(lt) && 0 <= i < n <= |s| && Sorted(lt, s, 0, |s|)
    ensures lt(s[i], v) <==> i < CountLess(lt, s, 0, n, v)
    decreases n
  {
    CountRange(lt, s, n - 1, v);
    if i < n - 1 {
      CountPrefix(lt, s, n - 1, v, i);
      if lt(s[n - 1], v) {
        LessTransRight(lt, s[i], s[n - 1], v);
        CountFull(lt, s, n - 1, v);
      }
    } else if lt(s[n - 1], v) {
      CountFull(lt, s, n - 1, v);
    }
  }

  /** If a splitter is below v then so is every one before it. */
  lemma {:induction false} CountFull<T(!new)>(lt: (T, T) -> bool, s: seq<T>, n: int, v: T)
    requires StrictWeak(lt) && 0 <= n < |s| && Sorted(lt, s, 0, |s|) && lt(s[n], v)
    ensures CountLess(lt, s, 0, n, v) == n
    decreases n
  {
    if 0 < n {
      LessTransRight(lt, s[n - 1], s[n], v);
      CountFull(lt, s, n - 1, v);
    }
  }

  /** The splitters below a value are those in front of its bucket, or pair of buckets. */
  lemma BucketBounds<T(!new)>(lt: (T, T) -> bool, s: seq<T>, v: T, equalBuckets: bool)
    requires StrictWeak(lt) && 0 < |s| && Sorted(lt, s, 0, |s|)
    ensures var b := Bucket(lt, s, v, equalBuckets);
            forall i :: 0 <= i < |s| ==> (lt(s[i], v) <==> i < if equalBuckets then b / 2 else b)
  {
    forall i | 0 <= i < |s|
      ensures lt(s[i], v) <==> i < CountLess(lt, s, 0, |s|, v)
    {
      CountPrefix(lt, s, |s|, v, i);
    }
  }

  /** Buckets follow the order: a value that is not greater gets no later bucket. */
  lemma BucketMonotone<T(!new)>(lt: (T, T) -> bool, s: seq<T>, x: T, y: T, equalBuckets: bool)
    requires StrictWeak(lt) && 0 < |s| && Sorted(lt, s, 0, |s|) && !lt(y, x)
    ensures 0 <= Bucket(lt, s, x, equalBuckets) <= Bucket(lt, s, y, equalBuckets)
    ensures Bucket(lt, s, y, equalBuckets) <= if equalBuckets then 2 * |s| + 1 else |s|
  {
    var c, d := CountLess(lt, s, 0, |s|, x), CountLess(lt, s, 0, |s|, y);
    CountRange(lt, s, |s|, x);
    CountRange(lt, s, |s|, y);
    if 0 < c {
      CountPrefix(lt, s, |s|, x, c - 1);
      LessTrans(lt, s[c - 1], x, y);
      CountPrefix(lt, s, |s|, y, c - 1);
    }
    if c == d {
      var t := if c < |s| then s[c] else s[|s| - 1];
      if !lt(x, t) {
        NotLessTrans(lt, y, x, t);
      }
    }
  }

  /** With equal buckets a value gets an odd one exactly if it equals a splitter or exceeds all. */
  lemma OddBucket<T(!new)>(lt: (T, T) -> bool, s: seq<T>, v: T)
    requires StrictWeak(lt) && 0 < |s| && Sorted(lt, s, 0, |s|)
    ensures Bucket(lt, s, v, true) % 2 == 1 <==>
            || (exists i :: 0 <= i < |s| && !lt(s[i], v) && !lt(v, s[i]))
            || (forall i :: 0 <= i < |s| ==> lt(s[i], v))
  {
    var c := CountLess(lt, s, 0, |s|, v);
    CountRange(lt, s, |s|, v);
    if c < |s| {
      CountPrefix(lt, s, |s|, v, c);
      if i :| 0 <= i < |s| && !lt(s[i], v) && !lt(v, s[i]) {
        CountPrefix(lt, s, |s|, v, i);
        if c < i {
          NotLessTrans(lt, v, s[i], s[c]);
        }
      }
    } else {
      CountPrefix(lt, s, |s|, v, |s| - 1);
      Asymmetric(lt, v, s[|s| - 1]);
      forall i | 0 <= i < |s|
        ensures lt(s[i], v)
      {
        CountPrefix(lt, s, |s|, v, i);
      }
    }
  }

  // ----- the tree -----

  /** The number, on the lowest level, of the leftmost leaf below node pos at height h. */
  function Leftmost(pos: int, h: nat): int
    decreases h
  {
    if h == 0 then pos else Leftmost(2 * pos, h - 1)
  }

  lemma {:induction false} LeftmostClosed(pos: int, h: nat)
    ensures Leftmost(pos, h) == pos * Pow2(h)
    decreases h
  {
    if 0 < h {
      LeftmostClosed(2 * pos, h - 1);
      assert (2 * pos) * Pow2(h - 1) == pos * (2 * Pow2(h - 1));
    }
  }

  lemma LeftmostNext(pos: int, h: nat)
    ensures Leftmost(pos + 1, h) == Leftmost(pos, h) + Pow2(h)
  {
    LeftmostClosed(pos, h);
    LeftmostClosed(pos + 1, h);
    assert (pos + 1) * Pow2(h) == pos * Pow2(h) + Pow2(h);
  }

  /** Node pos at height h of the tree with 2^top buckets. */
  ghost predicate OnHeight(pos: int, h: int, top: nat) {
    0 <= h <= top && Pow2(top - h) <= pos < 2 * Pow2(top - h)
  }

  lemma {:induction false} BucketsBelow(pos: int, h: int, top: nat)
    requires OnHeight(pos, h, top)
    ensures Pow2(top) <= Leftmost(pos, h) && Leftmost(pos, h) + Pow2(h) <= 2 * Pow2(top)
    decreases h
  {
    if 0 < h {
      BucketsBelow(2 * pos, h - 1, top);
      BucketsBelow(2 * pos + 1, h - 1, top);
      LeftmostNext(2 * pos, h - 1);
    }
  }

  /** The splitter that separates the two halves of the buckets below a node. */
  function Middle(pos: int, h: int, top: nat): int
    requires 0 < h
  {
    Leftmost(pos, h) - Pow2(top) + Pow2(h - 1) - 1
  }

  /** Every node below pos, pos included, holds its middle splitter. */
  ghost predicate IsTree<T(!new)>(tree: seq<T>, s: seq<T>, pos: int, h: int, top: nat)
    decreases h
  {
    h <= 0 || (
      && 0 <= pos < |tree| && 0 <= Middle(pos, h, top) < |s| && tree[pos] == s[Middle(pos, h, top)]
      && IsTree(tree, s, 2 * pos, h - 1, top) && IsTree(tree, s, 2 * pos + 1, h - 1, top))
  }

  /** x lies below pos in the tree. */
  predicate Below(pos: int, x: int)
    decreases x
  {
    x == pos || (0 < pos < x && Below(pos, x / 2))
  }

  lemma {:induction false} ChildBelow(pos: int, child: int, x: int)
    requires 0 < pos && (child == 2 * pos || child == 2 * pos + 1) && Below(child, x)
    ensures Below(pos, x) && x != pos
    decreases x
  {
    if x != child {
      ChildBelow(pos, child, x / 2);
    }
  }

  lemma {:induction false} SiblingsApart(pos: int, x: int)
    requires 0 < pos && Below(2 * pos, x)
    ensures !Below(2 * pos + 1, x)
    decreases x
  {
    if x != 2 * pos && x != 2 * pos + 1 {
      if Below(2 * pos + 1, x / 2) {
        SiblingsApart(pos, x / 2);
      }
    }
  }

  /** A subtree depends on its own cells only. */
  lemma {:induction false} IsTreeFrame<T(!new)>(tree: seq<T>, u: seq<T>, s: seq<T>, pos: int, h: int, top: nat)
    requires IsTree(tree, s, pos, h, top) && |tree| == |u| && 0 < pos
    requires forall x :: 0 <= x < |tree| && Below(pos, x) ==> u[x] == tree[x]
    ensures IsTree(u, s, pos, h, top)
    decreases h
  {
    if 0 < h {
      forall x | 0 <= x < |tree| && (Below(2 * pos, x) || Below(2 * pos + 1, x))
        ensures u[x] == tree[x]
      {
        ChildBelow(pos, if Below(2 * pos, x) then 2 * pos else 2 * pos + 1, x);
      }
      IsTreeFrame(tree, u, s, 2 * pos, h - 1, top);
      IsTreeFrame(tree, u, s, 2 * pos + 1, h - 1, top);
    }
  }

  /** The search for v has come down to node b: the count of smaller splitters is one of its buckets. */
  ghost predicate Searching<T(!new)>(lt: (T, T) -> bool, tree: seq<T>, s: seq<T>, v: T, b: int, h: int, top: nat) {
    && OnHeight(b, h, top) && IsTree(tree, s, b, h, top)
    && 0 <= Leftmost(b, h) - Pow2(top) <= CountLess(lt, s, 0, |s|, v) < Leftmost(b, h) - Pow2(top) + Pow2(h)
  }

  lemma SearchStart<T(!new)>(lt: (T, T) -> bool, tree: seq<T>, s: seq<T>, v: T, top: nat)
    requires |s| == Pow2(top) - 1 && IsTree(tree, s, 1, top, top)
    ensures Searching(lt, tree, s, v, 1, top, top)
  {
    LeftmostClosed(1, top);
    CountRange(lt, s, |s|, v);
  }

  lemma SearchStep<T(!new)>(lt: (T, T) -> bool, tree: seq<T>, s: seq<T>, v: T, b: int, h: int, top: nat)
    requires StrictWeak(lt) && Sorted(lt, s, 0, |s|) && 0 < h && Searching(lt, tree, s, v, b, h, top)
    ensures 0 <= b < |tree|
    ensures Searching(lt, tree, s, v, 2 * b + (if lt(tree[b], v) then 1 else 0), h - 1, top)
  {
    NodeFacts(b, h, top);
    CountPrefix(lt, s, |s|, v, Middle(b, h, top));
  }

  class Classifier<T(!new)> {
    const lt: (T, T) -> bool
    var logBuckets: int
    var numBuckets: int
    const storage: array<T>
    const sortedStorage: array<T>

    constructor (lt: (T, T) -> bool, storage: array<T>, sortedStorage: array<T>)
      ensures this.lt == lt && this.storage == storage && this.sortedStorage == sortedStorage && logBuckets == 0
    {
      this.lt, this.storage, this.sortedStorage := lt, storage, sortedStorage;
      logBuckets, numBuckets := 0, 0;
    }

    ghost function Splitters(): seq<T>
      requires 0 < numBuckets <= sortedStorage.Length
      reads this, sortedStorage
    {
      sortedStorage[..numBuckets - 1]
    }

    /** The tree is built over sorted splitters, the last of which is stored twice. */
    ghost predicate Built()
      reads this, storage, sortedStorage
    {
      && StrictWeak(lt) && 1 <= logBuckets && numBuckets == Pow2(logBuckets)
      && numBuckets <= sortedStorage.Length && numBuckets <= storage.Length
      && 2 <= numBuckets && Sorted(lt, sortedStorage[..], 0, numBuckets - 1)
      && sortedStorage[numBuckets - 1] == sortedStorage[numBuckets - 2]
      && IsTree(storage[..], Splitters(), 1, logBuckets, logBuckets)
    }

    /** Builds the tree of 2^logBuckets buckets from that many splitters less one. */
    method Build(logBuckets: int)
      requires StrictWeak(lt) && 1 <= logBuckets && storage != sortedStorage
      requires Pow2(logBuckets) <= sortedStorage.Length && Pow2(logBuckets) <= storage.Length
      requires Sorted(lt, sortedStorage[..], 0, Pow2(logBuckets) - 1)
      modifies this, storage, sortedStorage
      ensures Built() && this.logBuckets == logBuckets
      ensures Splitters() == old(sortedStorage[..Pow2(logBuckets) - 1])
    {
      this.logBuckets := logBuckets;
      numBuckets := PowerOfTwo(logBuckets);
      var numSplitters := numBuckets - 1;
      sortedStorage[numSplitters] := sortedStorage[numSplitters - 1];
      LeftmostClosed(1, logBuckets);
      BuildNode(0, numSplitters, 1, logBuckets);
    }

    /** 1 << n. */
    static method PowerOfTwo(n: nat) returns (r: int)
      ensures r == Pow2(n)
    {
      r := 1;
      for i := 0 to n
        invariant r == Pow2(i)
      {
        r := 2 * r;
      }
    }

    /** Writes the subtree at pos from the splitters left..right. */
    method BuildNode(left: int, right: int, pos: int, ghost h: int)
      requires 1 <= h && 1 <= logBuckets && numBuckets == Pow2(logBuckets) && OnHeight(pos, h, logBuckets)
      requires storage != sortedStorage && numBuckets <= storage.Length && numBuckets <= sortedStorage.Length
      requires var base := Leftmost(pos, h) - numBuckets;
               (left == base == 0 && right == Pow2(h) - 1) || (left == base - 1 && 0 <= left && right == left + Pow2(h))
      modifies storage
      ensures IsTree(storage[..], Splitters(), pos, h, logBuckets)
      ensures forall x :: 0 <= x < storage.Length && !Below(pos, x) ==> storage[x] == old(storage[x])
      decreases h
    {
      hide IsTree, Below, Leftmost, OnHeight;
      var mid := left + (right - left) / 2;
      NodeFacts(pos, h, logBuckets);
      storage[pos] := sortedStorage[mid];
      OutsideChildren(pos, storage.Length);
      if 2 * pos < numBuckets {
        BuildNode(left, mid, 2 * pos, h - 1);
        ghost var t := storage[..];
        BuildNode(mid, right, 2 * pos + 1, h - 1);
        BothSubtrees(t, storage[..], Splitters(), pos, h, logBuckets);
      } else {
        LowestNode(storage[..], Splitters(), pos, h, logBuckets);
      }
    }

    /** One comparison per level leads to the bucket of the value. */
    method Classify(value: T, equalBuckets: bool) returns (bucket: int)
      requires Built()
      ensures bucket == Bucket(lt, Splitters(), value, equalBuckets)
    {
      hide IsTree;
      var b := 1;
      SearchStart(lt, storage[..], Splitters(), value, logBuckets);
      for l := 0 to logBuckets
        invariant Searching(lt, storage[..], Splitters(), value, b, logBuckets - l, logBuckets)
      {
        SearchStep(lt, storage[..], Splitters(), value, b, logBuckets - l, logBuckets);
        b := 2 * b + (if lt(storage[b], value) then 1 else 0);
      }
      SearchEnd(value, b, equalBuckets);
      if equalBuckets {
        b := 2 * b + (if lt(value, sortedStorage[b - numBuckets]) then 0 else 1);
      }
      bucket := b - (if equalBuckets then 2 * numBuckets else numBuckets);
    }

    /** Classifies a[begin..end] in groups of kUnroll, level by level through each group, then the
        rest one by one; yields each element once and in order. */
    method ClassifyUnrolled(a: array<T>, begin0: int, end: int, kUnroll: nat, equalBuckets: bool)
      returns (yielded: seq<(int, int)>)
      requires Built() && 0 <= begin0 <= end <= a.Length && 0 < kUnroll
      ensures |yielded| == end - begin0
      ensures forall j :: 0 <= j < |yielded| ==>
                yielded[j] == (Bucket(lt, Splitters(), a[begin0 + j], equalBuckets), begin0 + j)
    {
      yielded := [];
      var begin := begin0;
      var b := new int[kUnroll];
      while begin <= end - kUnroll
        invariant begin0 <= begin <= end && |yielded| == begin - begin0
        invariant forall j :: 0 <= j < |yielded| ==>
                    yielded[j] == (Bucket(lt, Splitters(), a[begin0 + j], equalBuckets), begin0 + j)
      {
        ClassifyGroup(a, begin, kUnroll, equalBuckets, b);
        var i := 0;
        while i < kUnroll
          invariant 0 <= i <= kUnroll && |yielded| == begin + i - begin0
          invariant forall j :: 0 <= j < |yielded| ==>
                      yielded[j] == (Bucket(lt, Splitters(), a[begin0 + j], equalBuckets), begin0 + j)
        {
          yielded := yielded + [(b[i], begin + i)];
          i := i + 1;
        }
        begin := begin + kUnroll;
      }
      while begin != end
        invariant begin0 <= begin <= end && |yielded| == begin - begin0
        invariant forall j :: 0 <= j < |yielded| ==>
                    yielded[j] == (Bucket(lt, Splitters(), a[begin0 + j], equalBuckets), begin0 + j)
        decreases end - begin
      {
        var bucket := Classify(a[begin], equalBuckets);
        yielded := yielded + [(bucket, begin)];
        begin := begin + 1;
      }
    }

    /** One group: the loop over levels is outside the loop over the group's elements. */
    method ClassifyGroup(a: array<T>, begin: int, kUnroll: nat, equalBuckets: bool, b: array<int>)
      requires Built() && 0 <= begin && begin + kUnroll <= a.Length && b.Length == kUnroll
      requires (b as object) != storage && (b as object) != sortedStorage && (b as object) != a
      modifies b
      ensures forall i :: 0 <= i < kUnroll ==> b[i] == Bucket(lt, Splitters(), a[begin + i], equalBuckets)
    {
      hide IsTree, Bucket, Searching;
      ghost var s, top := Splitters(), logBuckets;
      for i := 0 to kUnroll
        invariant forall k :: 0 <= k < i ==> Searching(lt, storage[..], s, a[begin + k], b[k], top, top)
      {
        b[i] := 1;
        SearchStart(lt, storage[..], s, a[begin + i], top);
      }
      for l := 0 to logBuckets
        invariant forall k :: 0 <= k < kUnroll ==> Searching(lt, storage[..], s, a[begin + k], b[k], top - l, top)
      {
        DescendGroup(a, begin, kUnroll, b, top - l);
      }
      for i := 0 to kUnroll
        invariant forall k :: 0 <= k < i ==> b[k] == Bucket(lt, s, a[begin + k], equalBuckets)
        invariant forall k :: i <= k < kUnroll ==> Searching(lt, storage[..], s, a[begin + k], b[k], 0, top)
      {
        SearchEnd(a[begin + i], b[i], equalBuckets);
        if equalBuckets {
          b[i] := 2 * b[i] + (if lt(a[begin + i], sortedStorage[b[i] - numBuckets]) then 0 else 1);
        }
        b[i] := b[i] - (if equalBuckets then 2 * numBuckets else numBuckets);
      }
    }

    /** One level for the whole group. */
    method DescendGroup(a: array<T>, begin: int, kUnroll: nat, b: array<int>, ghost h: int)
      requires Built() && 0 <= begin && begin + kUnroll <= a.Length && b.Length == kUnroll
      requires (b as object) != storage && (b as object) != sortedStorage && (b as object) != a && 0 < h
      requires forall k :: 0 <= k < kUnroll ==> Searching(lt, storage[..], Splitters(), a[begin + k], b[k], h, logBuckets)
      modifies b
      ensures forall k :: 0 <= k < kUnroll ==> Searching(lt, storage[..], Splitters(), a[begin + k], b[k], h - 1, logBuckets)
    {
      hide IsTree, Searching;
      ghost var s, top := Splitters(), logBuckets;
      for i := 0 to kUnroll
        invariant forall k :: 0 <= k < i ==> Searching(lt, storage[..], s, a[begin + k], b[k], h - 1, top)
        invariant forall k :: i <= k < kUnroll ==> Searching(lt, storage[..], s, a[begin + k], b[k], h, top)
      {
        SearchStep(lt, storage[..], s, a[begin + i], b[i], h, top);
        b[i] := 2 * b[i] + (if lt(storage[b[i]], a[begin + i]) then 1 else 0);
      }
    }

    /** At the bottom the node's number tells the bucket. */
    lemma SearchEnd(v: T, b: int, equalBuckets: bool)
      requires Built() && Searching(lt, storage[..], Splitters(), v, b, 0, logBuckets)
      ensures 0 <= b - numBuckets < sortedStorage.Length
      ensures Bucket(lt, Splitters(), v, equalBuckets) ==
              if equalBuckets then 2 * b + (if lt(v, sortedStorage[b - numBuckets]) then 0 else 1) - 2 * numBuckets
              else b - numBuckets
    {
      CountRange(lt, Splitters(), |Splitters()|, v);
    }
  }

  /** The bounds of a node: where its middle lies and whether it has children. */
  lemma NodeFacts(pos: int, h: int, top: nat)
    requires OnHeight(pos, h, top) && 0 < h
    ensures 0 < pos < Pow2(top) && 0 <= Middle(pos, h, top) < Pow2(top) - 1
    ensures 0 <= Leftmost(pos, h) - Pow2(top)
    ensures 2 * pos < Pow2(top) <==> 1 < h
    ensures 1 < h ==> OnHeight(2 * pos, h - 1, top) && OnHeight(2 * pos + 1, h - 1, top)
    ensures Leftmost(2 * pos, h - 1) == Leftmost(pos, h)
    ensures Leftmost(2 * pos + 1, h - 1) == Leftmost(pos, h) + Pow2(h - 1)
  {
    BucketsBelow(pos, h, top);
    LeftmostNext(2 * pos, h - 1);
    Pow2Monotone(top - h + 1, top);
    if 1 < h {
      Pow2Monotone(top - h + 2, top);
    }
  }

  lemma OutsideChildren(pos: int, n: int)
    requires 0 < pos
    ensures Below(pos, pos) && !Below(2 * pos, pos) && !Below(2 * pos + 1, pos)
    ensures forall x :: 0 <= x < n && !Below(pos, x) ==> !Below(2 * pos, x) && !Below(2 * pos + 1, x)
  {
    forall x | 0 <= x < n && !Below(pos, x)
      ensures !Below(2 * pos, x) && !Below(2 * pos + 1, x)
    {
      if Below(2 * pos, x) || Below(2 * pos + 1, x) {
        ChildBelow(pos, if Below(2 * pos, x) then 2 * pos else 2 * pos + 1, x);
      }
    }
  }

  lemma LowestNode<T(!new)>(tree: seq<T>, s: seq<T>, pos: int, h: int, top: nat)
    requires h == 1 && 0 <= pos < |tree| && 0 <= Middle(pos, h, top) < |s| && tree[pos] == s[Middle(pos, h, top)]
    ensures IsTree(tree, s, pos, h, top)
  {
  }

  /** Building the right subtree leaves the left one and the node as they are. */
  lemma BothSubtrees<T(!new)>(t: seq<T>, u: seq<T>, s: seq<T>, pos: int, h: int, top: nat)
    requires 0 < h && 0 < pos < |t| == |u| && 0 <= Middle(pos, h, top) < |s| && t[pos] == s[Middle(pos, h, top)]
    requires IsTree(t, s, 2 * pos, h - 1, top) && IsTree(u, s, 2 * pos + 1, h - 1, top)
    requires forall x :: 0 <= x < |t| && !Below(2 * pos + 1, x) ==> u[x] == t[x]
    ensures IsTree(u, s, pos, h, top)
  {
    forall x | 0 <= x < |t| && Below(2 * pos, x)
      ensures u[x] == t[x]
    {
      SiblingsApart(pos, x);
    }
    IsTreeFrame(t, u, s, 2 * pos, h - 1, top);
  }
}
