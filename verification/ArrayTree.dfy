/** The static tree of parallel_partition.h: reductions between barriers and navigation. */
module ArrayTree {
  import opened Schedules
  import opened SumTree

  /** An item of a leaf: the node and the index within the leaf's own range. */
  datatype Element = Element(iNode: int, i: int)

  // ----- index arithmetic -----

  function IParent(index: int): int { (index - 1) / 2 }
  function ILeft(index: int): int { 2 * index + 1 }
  function IRight(index: int): int { 2 * index + 2 }
  predicate IsRight(index: int) { index % 2 == 0 }
  predicate IsLeft(index: int) { !IsRight(index) }

  /** The least power of two that is not below size. */
  method CeilPot2(size: nat) returns (pot: int, ghost k: nat)
    ensures pot == Pow2(k)
    ensures size <= pot && (size > 1 ==> pot < 2 * size) && (size <= 1 ==> pot == 1)
  {
    pot, k := 1, 0;
    while 2 * pot <= size
      invariant pot == Pow2(k) && (size >= 1 ==> pot <= size) && (size == 0 ==> pot == 1)
      decreases size - pot
    {
      pot, k := 2 * pot, k + 1;
    }
    if size != 0 && pot != size {
      pot, k := 2 * pot, k + 1;
    }
  }

  /** What precedes a node among the leaves, summed on the way up to the root. */
  function RankParent(v: seq<int>, node: int): int
    requires 0 <= node < |v|
    decreases node
  {
    if node == 0 then 0
    else if IsLeft(node) then RankParent(v, IParent(node))
    else v[ILeft(IParent(node))] + RankParent(v, IParent(node))
  }

  /** The left sibling of a right node: it stands on the same level and ends where the node begins. */
  lemma LeftSibling(node: int, h: int, top: int)
    requires OnLevel(node, h, top) && 0 < node && IsRight(node)
    ensures OnLevel(ILeft(IParent(node)), h, top)
    ensures FirstLeaf(ILeft(IParent(node)) + 1, h) == FirstLeaf(node, h)
    ensures 0 <= h && FirstLeaf(ILeft(IParent(node)), h) == FirstLeaf(IParent(node), h + 1)
  {
  }

  lemma LeftParent(node: int, h: int)
    requires 0 <= h && 0 < node && IsLeft(node)
    ensures FirstLeaf(node, h) == FirstLeaf(IParent(node), h + 1)
  {
  }

  /** Climbing computes the prefix sum. */
  lemma {:induction false} RankIsPrefix(v: seq<int>, node: int, h: int, top: nat)
    requires Summed(v, top) && OnLevel(node, h, top)
    ensures 0 <= node < |v| && Pow2(top) - 1 <= FirstLeaf(node, h) <= |v|
    ensures RankParent(v, node) == Sum(v, Pow2(top) - 1, FirstLeaf(node, h))
    decreases node
  {
    hide Summed, Sum;
    NodeSum(v, node, h, top);
    LeavesInside(node, h, top);
    if node == 0 {
      RootLevel(h, top);
      RootLeaves(top);
      SumEmpty(v, Pow2(top) - 1);
    } else {
      ParentLevel(node, h, top);
      RankIsPrefix(v, IParent(node), h + 1, top);
      if IsLeft(node) {
        LeftParent(node, h);
      } else {
        LeftSibling(node, h, top);
        NodeSum(v, ILeft(IParent(node)), h, top);
        SumSplit(v, Pow2(top) - 1, FirstLeaf(IParent(node), h + 1), FirstLeaf(node, h));
      }
    }
  }

  /** The item of rank r (from 0) among those that v counts leaf by leaf. */
  ghost function Item(v: seq<int>, top: nat, r: int): (p: Place)
    requires Summed(v, top) && 0 <= r < v[0]
    ensures Pow2(top) - 1 <= p.leaf < |v| && 0 <= p.k < v[p.leaf]
  {
    Total(v, top);
    Locate(v, Pow2(top) - 1, |v|, r)
  }

  lemma Total(v: seq<int>, top: nat)
    requires Summed(v, top)
    ensures v[0] == Sum(v, Pow2(top) - 1, |v|)
  {
    RootLeaves(top);
    NodeSum(v, 0, top, top);
  }

  lemma ItemIs(v: seq<int>, top: nat, leaf: int, k: int)
    requires Summed(v, top) && Pow2(top) - 1 <= leaf < |v| && 0 <= k < v[leaf]
    ensures 0 <= Sum(v, Pow2(top) - 1, leaf) + k < v[0]
    ensures Item(v, top, Sum(v, Pow2(top) - 1, leaf) + k) == Place(leaf, k)
  {
    Total(v, top);
    LocateUnique(v, Pow2(top) - 1, |v|, leaf, k);
  }

  lemma ItemRank(v: seq<int>, top: nat, r: int)
    requires Summed(v, top) && 0 <= r < v[0]
    ensures var p := Item(v, top, r); r == Sum(v, Pow2(top) - 1, p.leaf) + p.k
  {
    Total(v, top);
  }

  /** The search for item i0 from leaf first on has come down to item i of a node. */
  ghost predicate Descending(v: seq<int>, top: nat, first: int, node: int, h: int, i: int, i0: int) {
    && OnLevel(node, h, top) && 0 <= node < |v| && 1 <= i <= v[node]
    && 0 <= first <= FirstLeaf(node, h) <= |v|
    && Sum(v, first, FirstLeaf(node, h)) + i == i0
  }

  lemma DescendStep(v: seq<int>, top: nat, first: int, node: int, h: int, i: int, i0: int)
    requires Summed(v, top) && Descending(v, top, first, node, h, i, i0) && 0 < h
    ensures IRight(node) < |v|
    ensures if i <= v[ILeft(node)] then Descending(v, top, first, ILeft(node), h - 1, i, i0)
            else Descending(v, top, first, IRight(node), h - 1, i - v[ILeft(node)], i0)
  {
    ChildLevels(node, h, top);
    LeafLevel(node, h, top);
    assert IsSum(v, node);
    NodeSum(v, ILeft(node), h - 1, top);
    NodeSum(v, IRight(node), h - 1, top);
    SumSplit(v, first, FirstLeaf(node, h), FirstLeaf(IRight(node), h - 1));
  }

  lemma DescendStart(v: seq<int>, top: nat, root: int, h: int, i0: int)
    requires Summed(v, top) && OnLevel(root, h, top) && 0 <= root < |v| && 1 <= i0 <= v[root]
    ensures 0 <= h && Pow2(top) - 1 <= FirstLeaf(root, h) <= |v|
    ensures Descending(v, top, FirstLeaf(root, h), root, h, i0, i0)
  {
    NodeSum(v, root, h, top);
    LeavesInside(root, h, top);
  }

  lemma DescendFacts(v: seq<int>, top: nat, first: int, node: int, h: int, i: int, i0: int)
    requires Descending(v, top, first, node, h, i, i0)
    ensures 0 <= h && 0 <= node < |v| && 1 <= i && (h == 0 <==> node >= Pow2(top) - 1)
  {
    LeafLevel(node, h, top);
  }

  /** At a leaf the search has found its item. */
  lemma DescendEnd(v: seq<int>, top: nat, first: int, node: int, i: int, i0: int)
    requires Summed(v, top) && Descending(v, top, first, node, 0, i, i0) && Pow2(top) - 1 <= first
    ensures first <= |v|
    ensures var r := Sum(v, Pow2(top) - 1, first) + i0 - 1; 0 <= r < v[0] && Item(v, top, r) == Place(node, i - 1)
  {
    LeafLevel(node, 0, top);
    SumSplit(v, Pow2(top) - 1, first, node);
    ItemIs(v, top, node, i - 1);
  }

  /** A target beyond the leaves of a node leaves room on its right. */
  lemma EndInside(v: seq<int>, top: nat, node: int, h: int, inc: int, target: int)
    requires Summed(v, top) && OnLevel(node, h, top) && 1 <= inc && target < v[0]
    requires FirstLeaf(node + 1, h) <= |v|
    requires Pow2(top) - 1 <= FirstLeaf(node + 1, h)
    requires Sum(v, Pow2(top) - 1, FirstLeaf(node + 1, h)) + inc - 1 == target
    ensures FirstLeaf(node + 1, h) < |v|
  {
    Total(v, top);
  }

  /** A target before the leaves of a node leaves room on its left. */
  lemma StartInside(v: seq<int>, top: nat, node: int, h: int, dec: int, target: int)
    requires Summed(v, top) && OnLevel(node, h, top) && 1 <= dec && 0 <= target
    requires Pow2(top) - 1 <= FirstLeaf(node, h) <= |v|
    requires Sum(v, Pow2(top) - 1, FirstLeaf(node, h)) - dec == target
    ensures Pow2(top) - 1 < FirstLeaf(node, h)
  {
  }

  /** At an inner node: the target is d items from where its right child begins. */
  ghost predicate Seeking(v: seq<int>, top: nat, node: int, h: int, d: int, target: int) {
    && 0 < h && OnLevel(node, h, top) && 0 <= node && IRight(node) < |v|
    && 0 <= Pow2(top) - 1 <= FirstLeaf(IRight(node), h - 1) <= |v|
    && Sum(v, Pow2(top) - 1, FirstLeaf(IRight(node), h - 1)) + d == target
  }

  /** The target lies inc items past the end of a node. */
  ghost predicate Beyond(v: seq<int>, top: nat, node: int, h: int, inc: int, target: int) {
    && OnLevel(node, h, top) && Pow2(top) - 1 <= FirstLeaf(node + 1, h) <= |v| && 0 < |v| && 1 <= inc
    && Sum(v, Pow2(top) - 1, FirstLeaf(node + 1, h)) + inc - 1 == target < v[0]
  }

  /** The target lies dec items before the begin of a node. */
  ghost predicate Before(v: seq<int>, top: nat, node: int, h: int, dec: int, target: int) {
    && OnLevel(node, h, top) && Pow2(top) - 1 <= FirstLeaf(node, h) <= |v| && 1 <= dec
    && Sum(v, Pow2(top) - 1, FirstLeaf(node, h)) - dec == target && 0 <= target
  }

  lemma SeekFacts(v: seq<int>, top: nat, node: int, h: int, d: int, target: int)
    requires Seeking(v, top, node, h, d, target)
    ensures 0 < h <= top && 0 <= node && IRight(node) < |v|
  {
  }

  /** What the descent into a child needs. */
  lemma SeekChild(v: seq<int>, top: nat, node: int, h: int, d: int, target: int)
    requires Summed(v, top) && Seeking(v, top, node, h, d, target)
    ensures 0 < h && 0 <= ILeft(node) && IRight(node) < |v|
    ensures OnLevel(ILeft(node), h - 1, top) && OnLevel(IRight(node), h - 1, top)
    ensures Pow2(top) - 1 <= FirstLeaf(ILeft(node), h - 1) <= |v| && Pow2(top) - 1 <= FirstLeaf(IRight(node), h - 1) <= |v|
    ensures Sum(v, Pow2(top) - 1, FirstLeaf(IRight(node), h - 1)) + d == target
    ensures Sum(v, Pow2(top) - 1, FirstLeaf(ILeft(node), h - 1)) + v[ILeft(node)] + d == target
  {
    hide Summed, Sum, OnLevel, FirstLeaf, Pow2;
    RightChild(v, top, node, h);
  }

  lemma BeyondBy(v: seq<int>, top: nat, node: int, h: int, inc: int, target: int)
    requires Beyond(v, top, node, h, inc, target)
    ensures 1 <= inc
  {
  }

  lemma BeforeBy(v: seq<int>, top: nat, node: int, h: int, dec: int, target: int)
    requires Before(v, top, node, h, dec, target)
    ensures 1 <= dec
  {
  }

  lemma LeafBeyond(v: seq<int>, top: nat, leaf: int, inc: int, target: int)
    requires |v| == 2 * Pow2(top) - 1 && Pow2(top) - 1 <= leaf < |v| && 1 <= inc
    requires Sum(v, Pow2(top) - 1, leaf + 1) + inc - 1 == target < v[0]
    ensures Beyond(v, top, leaf, 0, inc, target)
  {
  }

  lemma LeafBefore(v: seq<int>, top: nat, leaf: int, dec: int, target: int)
    requires |v| == 2 * Pow2(top) - 1 && Pow2(top) - 1 <= leaf < |v| && 1 <= dec
    requires 0 <= target && Sum(v, Pow2(top) - 1, leaf) - dec == target
    ensures Before(v, top, leaf, 0, dec, target)
  {
  }

  /** Too few items in the right child: the target lies beyond the node. */
  lemma SeekOnward(v: seq<int>, top: nat, node: int, h: int, inc: int, target: int)
    requires Summed(v, top) && Seeking(v, top, node, h, inc - 1, target) && target < v[0] && v[IRight(node)] < inc
    ensures Beyond(v, top, node, h, inc - v[IRight(node)], target)
  {
    hide Summed, Sum, OnLevel, FirstLeaf, Pow2;
    RightChild(v, top, node, h);
  }

  /** Too few items in the left child: the target lies before the node. */
  lemma SeekBack(v: seq<int>, top: nat, node: int, h: int, dec: int, target: int)
    requires Summed(v, top) && Seeking(v, top, node, h, -dec, target) && 0 <= target && v[ILeft(node)] < dec
    ensures Before(v, top, node, h, dec - v[ILeft(node)], target)
  {
    hide Summed, Sum, OnLevel, FirstLeaf, Pow2;
    RightChild(v, top, node, h);
  }

  lemma SumStep(v: seq<int>, lo: int, k: int)
    requires 0 <= lo <= k < |v|
    ensures Sum(v, lo, k + 1) == Sum(v, lo, k) + v[k]
  {
  }

  /** The leaves of an inner node end with those of its right child, and its left child's end where
      those begin. */
  lemma RightChild(v: seq<int>, top: nat, node: int, h: int)
    requires Summed(v, top) && OnLevel(node, h, top) && 0 <= node && 0 < h
    ensures IRight(node) < |v|
    ensures OnLevel(ILeft(node), h - 1, top) && OnLevel(IRight(node), h - 1, top)
    ensures FirstLeaf(ILeft(node), h - 1) == FirstLeaf(node, h)
    ensures Pow2(top) - 1 <= FirstLeaf(node, h) < FirstLeaf(IRight(node), h - 1) < FirstLeaf(node + 1, h) <= |v|
    ensures Sum(v, Pow2(top) - 1, FirstLeaf(node + 1, h)) ==
            Sum(v, Pow2(top) - 1, FirstLeaf(IRight(node), h - 1)) + v[IRight(node)]
    ensures Sum(v, Pow2(top) - 1, FirstLeaf(IRight(node), h - 1)) ==
            Sum(v, Pow2(top) - 1, FirstLeaf(node, h)) + v[ILeft(node)]
  {
    hide Sum, FirstLeaf, Pow2, IsSum;
    ChildLevels(node, h, top);
    NodeSum(v, ILeft(node), h - 1, top);
    NodeSum(v, IRight(node), h - 1, top);
    LeavesInside(ILeft(node), h - 1, top);
    LeavesInside(IRight(node), h - 1, top);
    SumSplit(v, Pow2(top) - 1, FirstLeaf(IRight(node), h - 1), FirstLeaf(node + 1, h));
    SumSplit(v, Pow2(top) - 1, FirstLeaf(node, h), FirstLeaf(IRight(node), h - 1));
  }

  // ----- one level of a reduction -----

  /** A thread that sums the children of its node: 0 to 3 of its accesses to memory are made, and it
      holds what it has read. */
  datatype Summing = Summing(stage: nat, left: int, right: int)

  /** The nodes from lo on are the sums of their children. */
  ghost predicate SummedFrom(v: seq<int>, lo: int, begin: int) {
    2 * begin + 1 == |v| && forall i :: 0 <= i && lo <= i < begin ==> IsSum(v, i)
  }

  /** Thread id in the phase that began with contents v0. */
  predicate SumUnderWay(v0: seq<int>, v: seq<int>, index: int, x: Summing)
    requires 0 <= index && IRight(index) < |v| == |v0|
  {
    && x.stage <= 3 && (1 <= x.stage ==> x.left == v0[ILeft(index)]) && (2 <= x.stage ==> x.right == v0[IRight(index)])
    && v[index] == if x.stage == 3 then v0[ILeft(index)] + v0[IRight(index)] else v0[index]
  }

  /** Between two barriers nodes used - 1 .. 2 * used - 2 are being summed and no others change. */
  ghost predicate SumsUnderWay(v0: seq<int>, v: seq<int>, used: int, regs: seq<Summing>) {
    && 0 < used <= |regs| && 4 * used - 1 <= |v| == |v0|
    && (forall i :: 0 <= i < |v| && !(used - 1 <= i < 2 * used - 1) ==> v[i] == v0[i])
    && (forall id :: 0 <= id < used ==> SumUnderWay(v0, v, id + used - 1, regs[id]))
  }

  lemma LevelInside(k: nat, top: nat)
    requires k < top
    ensures 2 * Pow2(k) <= Pow2(top)
  {
    Pow2Monotone(k + 1, top);
  }

  lemma SumsStart(v: seq<int>, used: int, regs: seq<Summing>)
    requires 0 < used <= |regs| && 4 * used - 1 <= |v| && forall id :: 0 <= id < |regs| ==> regs[id].stage == 0
    ensures SumsUnderWay(v, v, used, regs)
  {
  }

  lemma SumsOver(v0: seq<int>, v: seq<int>, used: int, begin: int, regs: seq<Summing>)
    requires SumsUnderWay(v0, v, used, regs) && forall id :: 0 <= id < used ==> regs[id].stage == 3
    requires Natural(v0) && SummedFrom(v0, 2 * used - 1, begin) && 2 * used - 1 <= begin
    ensures Natural(v) && SummedFrom(v, used - 1, begin)
    ensures forall i :: 2 * used - 1 <= i < |v| ==> v[i] == v0[i]
  {
    forall i | 0 <= i < |v|
      ensures v[i] >= 0
    {
      assert used - 1 <= i < 2 * used - 1 ==> SumUnderWay(v0, v, i - used + 1 + used - 1, regs[i - used + 1]);
    }
    forall i | 0 <= i && used - 1 <= i < begin
      ensures IsSum(v, i)
    {
      if i < 2 * used - 1 {
        assert SumUnderWay(v0, v, i - used + 1 + used - 1, regs[i - used + 1]);
      } else {
        assert IsSum(v0, i);
      }
    }
  }

  /** How many accesses thread id has made for both its counts. */
  function Made(regsL: seq<Summing>, regsR: seq<Summing>, id: int): int
    requires 0 <= id < |regsL| && id < |regsR|
  {
    regsL[id].stage + regsR[id].stage
  }

  ghost predicate MisUnderWay(l0: seq<int>, r0: seq<int>, l: seq<int>, r: seq<int>, used: int, regsL: seq<Summing>, regsR: seq<Summing>) {
    SumsUnderWay(l0, l, used, regsL) && SumsUnderWay(r0, r, used, regsR)
  }

  lemma MisStart(l: seq<int>, r: seq<int>, used: int, regsL: seq<Summing>, regsR: seq<Summing>)
    requires 0 < used <= |regsL| && used <= |regsR| && 4 * used - 1 <= |l| && 4 * used - 1 <= |r|
    requires forall id :: 0 <= id < |regsL| ==> regsL[id].stage == 0
    requires forall id :: 0 <= id < |regsR| ==> regsR[id].stage == 0
    ensures MisUnderWay(l, r, l, r, used, regsL, regsR)
    ensures forall id :: 0 <= id < used ==> Made(regsL, regsR, id) == 0
  {
  }

  lemma MisOver(l0: seq<int>, r0: seq<int>, l: seq<int>, r: seq<int>, used: int, begin: int, regsL: seq<Summing>, regsR: seq<Summing>)
    requires MisUnderWay(l0, r0, l, r, used, regsL, regsR)
    requires used <= |regsL| && used <= |regsR| && forall id :: 0 <= id < used ==> Made(regsL, regsR, id) == 6
    requires Natural(l0) && SummedFrom(l0, 2 * used - 1, begin) && 2 * used - 1 <= begin
    requires Natural(r0) && SummedFrom(r0, 2 * used - 1, begin)
    ensures Natural(l) && SummedFrom(l, used - 1, begin) && Natural(r) && SummedFrom(r, used - 1, begin)
    ensures forall i :: 2 * used - 1 <= i < |l| ==> l[i] == l0[i]
    ensures forall i :: 2 * used - 1 <= i < |r| ==> r[i] == r0[i]
  {
    hide SummedFrom, Natural;
    forall id | 0 <= id < used
      ensures regsL[id].stage == 3 && regsR[id].stage == 3
    {
      assert Made(regsL, regsR, id) == 6;
      assert SumUnderWay(l0, l, id + used - 1, regsL[id]) && SumUnderWay(r0, r, id + used - 1, regsR[id]);
    }
    SumsOver(l0, l, used, begin, regsL);
    SumsOver(r0, r, used, begin, regsR);
  }

  // ----- the tree -----

  class Tree {
    const nLeaves: nat
    const ceilNLeaves: nat
    ghost const height: nat
    const sizeL: array<int>
    const misL: array<int>
    const misR: array<int>

    ghost predicate Valid() {
      && 0 < nLeaves <= ceilNLeaves == Pow2(height)
      && (nLeaves > 1 ==> ceilNLeaves < 2 * nLeaves) && (nLeaves == 1 ==> ceilNLeaves == 1)
      && sizeL.Length == misL.Length == misR.Length == 2 * ceilNLeaves - 1
      && sizeL != misL && misL != misR && sizeL != misR
    }

    constructor (nL: nat)
      requires nL > 0
      ensures Valid() && nLeaves == nL
      ensures fresh(sizeL) && fresh(misL) && fresh(misR)
      ensures forall i :: 0 <= i < sizeL.Length ==> sizeL[i] == 0 && misL[i] == 0 && misR[i] == 0
    {
      var pot, k := CeilPot2(nL);
      nLeaves, ceilNLeaves, height := nL, pot, k;
      sizeL := new int[2 * pot - 1](_ => 0);
      misL := new int[2 * pot - 1](_ => 0);
      misR := new int[2 * pot - 1](_ => 0);
    }

    function BeginLeaves(): int
    {
      ceilNLeaves - 1
    }

    predicate IsLeaf(index: int) {
      index >= BeginLeaves()
    }

    // ----- reductions -----

    /** A thread's next access to memory while it sums the children of its node: it reads the left
        one, reads the right one, or writes the node. */
    method Access(v: array<int>, used: int, id: int, regs: array<Summing>, ghost v0: seq<int>)
      requires 0 <= id < used && regs[..] != [] && SumsUnderWay(v0, v[..], used, regs[..]) && regs[id].stage < 3
      requires (v as object) != regs
      modifies v, regs
      ensures SumsUnderWay(v0, v[..], used, regs[..])
      ensures regs[..] == old(regs[..])[id := regs[id]] && regs[id].stage == old(regs[id].stage) + 1
    {
      var x, index := regs[id], id + used - 1;
      if x.stage == 0 {
        regs[id] := Summing(1, v[ILeft(index)], x.right);
      } else if x.stage == 1 {
        regs[id] := Summing(2, x.left, v[IRight(index)]);
      } else {
        v[index] := x.left + x.right;
        regs[id] := Summing(3, x.left, x.right);
      }
    }

    /** Between two barriers the first `used` threads each sum one node of a level, their accesses to
        memory interleaved in any way: threads read the level below and write their own nodes. */
    method ReducePhase(v: array<int>, used: int, pick: int -> nat, ghost k: nat)
      requires Valid() && (v == sizeL || v == misL || v == misR)
      requires 0 < used == Pow2(k) && k < height
      requires Natural(v[..]) && SummedFrom(v[..], 2 * used - 1, BeginLeaves())
      modifies v
      ensures Natural(v[..]) && SummedFrom(v[..], used - 1, BeginLeaves())
      ensures forall i :: 2 * used - 1 <= i < v.Length ==> v[i] == old(v[i])
    {
      hide SumsUnderWay, SummedFrom, Sum, Unfinished, Without;
      LevelInside(k, height);
      ghost var v0 := v[..];
      var regs := new Summing[nLeaves](_ => Summing(0, 0, 0));
      SumsStart(v0, used, regs[..]);
      var todo, step := All(nLeaves), 0;
      ghost var work := seq(nLeaves, _ => 3);
      while todo != []
        invariant Unfinished(todo, nLeaves) && SumsUnderWay(v0, v[..], used, regs[..])
        invariant |work| == nLeaves && Natural(work)
        invariant forall id :: 0 <= id < used ==> work[id] == 3 - regs[id].stage
        invariant forall id :: 0 <= id < used && id !in todo ==> work[id] == 0
        decreases Sum(work, 0, nLeaves) + |todo|
      {
        var j := Chosen(pick, step, todo);
        Picked(todo, j, nLeaves);
        var id := todo[j];
        if id < used && regs[id].stage < 3 {
          LessWork(work, nLeaves, id, work[id] - 1);
          work := work[id := work[id] - 1];
          Access(v, used, id, regs, v0);
        } else {
          SumNatural(work, 0, nLeaves);
          Leaves(todo, j, nLeaves);
          todo := Without(todo, j);
        }
        step := step + 1;
      }
      SumsOver(v0, v[..], used, BeginLeaves(), regs[..]);
    }

    /** The same for both counts of misplaced elements: a thread sums its left count, then its right. */
    method AccessMis(used: int, id: int, regsL: array<Summing>, regsR: array<Summing>, ghost l0: seq<int>, ghost r0: seq<int>)
      requires Valid() && 0 <= id < used && regsL != regsR
      requires (regsL as object) != misL && (regsL as object) != misR && (regsR as object) != misL && (regsR as object) != misR
      requires used <= regsL.Length && used <= regsR.Length
      requires MisUnderWay(l0, r0, misL[..], misR[..], used, regsL[..], regsR[..]) && Made(regsL[..], regsR[..], id) < 6
      modifies misL, misR, regsL, regsR
      ensures MisUnderWay(l0, r0, misL[..], misR[..], used, regsL[..], regsR[..])
      ensures Made(regsL[..], regsR[..], id) == old(Made(regsL[..], regsR[..], id)) + 1
      ensures forall k :: 0 <= k < used && k != id ==> Made(regsL[..], regsR[..], k) == old(Made(regsL[..], regsR[..], k))
    {
      hide SumsUnderWay;
      if regsL[id].stage < 3 {
        Access(misL, used, id, regsL, l0);
      } else {
        Access(misR, used, id, regsR, r0);
      }
    }

    /** One level of both counts. */
    method ReduceMisPhase(used: int, pick: int -> nat, ghost k: nat)
      requires Valid() && 0 < used == Pow2(k) && k < height
      requires Natural(misL[..]) && SummedFrom(misL[..], 2 * used - 1, BeginLeaves())
      requires Natural(misR[..]) && SummedFrom(misR[..], 2 * used - 1, BeginLeaves())
      modifies misL, misR
      ensures Natural(misL[..]) && SummedFrom(misL[..], used - 1, BeginLeaves())
      ensures Natural(misR[..]) && SummedFrom(misR[..], used - 1, BeginLeaves())
      ensures forall i :: 2 * used - 1 <= i < misL.Length ==> misL[i] == old(misL[i]) && misR[i] == old(misR[i])
    {
      hide MisUnderWay, Made, SummedFrom, Sum, Unfinished, Without;
      LevelInside(k, height);
      ghost var l0, r0 := misL[..], misR[..];
      var regsL := new Summing[nLeaves](_ => Summing(0, 0, 0));
      var regsR := new Summing[nLeaves](_ => Summing(0, 0, 0));
      MisStart(l0, r0, used, regsL[..], regsR[..]);
      var todo, step := All(nLeaves), 0;
      ghost var work := seq(nLeaves, _ => 6);
      while todo != []
        invariant Unfinished(todo, nLeaves) && MisUnderWay(l0, r0, misL[..], misR[..], used, regsL[..], regsR[..])
        invariant |work| == nLeaves && Natural(work)
        invariant forall id :: 0 <= id < used ==> work[id] == 6 - Made(regsL[..], regsR[..], id)
        invariant forall id :: 0 <= id < used && id !in todo ==> work[id] == 0
        decreases Sum(work, 0, nLeaves) + |todo|
      {
        var j := Chosen(pick, step, todo);
        Picked(todo, j, nLeaves);
        var id := todo[j];
        if id < used && Made(regsL[..], regsR[..], id) < 6 {
          LessWork(work, nLeaves, id, work[id] - 1);
          work := work[id := work[id] - 1];
          AccessMis(used, id, regsL, regsR, l0, r0);
        } else {
          SumNatural(work, 0, nLeaves);
          Leaves(todo, j, nLeaves);
          todo := Without(todo, j);
        }
        step := step + 1;
      }
      MisOver(l0, r0, misL[..], misR[..], used, BeginLeaves(), regsL[..], regsR[..]);
    }

    /** All levels, bottom up: from any leaves the inner nodes become their sums. */
    method Reduce(v: array<int>, picks: int -> int -> nat)
      requires Valid() && (v == sizeL || v == misL || v == misR) && Natural(v[..])
      modifies v
      ensures Summed(v[..], height)
      ensures forall i :: BeginLeaves() <= i < v.Length ==> v[i] == old(v[i])
    {
      var used := ceilNLeaves / 2;
      ghost var k: int := height - 1;
      while used > 0
        invariant if k < 0 then used == 0 else k < height && used == Pow2(k)
        invariant Natural(v[..]) && SummedFrom(v[..], 2 * used - 1, BeginLeaves())
        invariant forall i :: BeginLeaves() <= i < v.Length ==> v[i] == old(v[i])
        decreases used
      {
        Pow2Monotone(k + 1, height);
        ReducePhase(v, used, picks(used), k);
        used := used / 2;
        k := k - 1;
      }
    }

    /** The misplaced counts of both sides go up together. */
    method ReduceMis(picks: int -> int -> nat)
      requires Valid() && Natural(misL[..]) && Natural(misR[..])
      modifies misL, misR
      ensures Summed(misL[..], height) && Summed(misR[..], height)
      ensures forall i :: BeginLeaves() <= i < misL.Length ==> misL[i] == old(misL[i]) && misR[i] == old(misR[i])
    {
      var used := ceilNLeaves / 2;
      ghost var k: int := height - 1;
      while used > 0
        invariant if k < 0 then used == 0 else k < height && used == Pow2(k)
        invariant Natural(misL[..]) && SummedFrom(misL[..], 2 * used - 1, BeginLeaves())
        invariant Natural(misR[..]) && SummedFrom(misR[..], 2 * used - 1, BeginLeaves())
        invariant forall i :: BeginLeaves() <= i < misL.Length ==> misL[i] == old(misL[i]) && misR[i] == old(misR[i])
        decreases used
      {
        Pow2Monotone(k + 1, height);
        ReduceMisPhase(used, picks(used), k);
        used := used / 2;
        k := k - 1;
      }
    }

    // ----- navigation -----

    /** Descends to the i-th item below a node, counted from one. */
    method Ith(i0: int, root: int, v: array<int>, ghost h0: int) returns (elem: Element)
      requires Valid() && v.Length == 2 * ceilNLeaves - 1 && Summed(v[..], height)
      requires OnLevel(root, h0, height) && 0 <= root < v.Length && 1 <= i0 <= v[root]
      ensures 0 <= FirstLeaf(root, h0) <= v.Length && BeginLeaves() <= FirstLeaf(root, h0)
      ensures var r := Sum(v[..], BeginLeaves(), FirstLeaf(root, h0)) + i0 - 1;
              0 <= r < v[0] && Item(v[..], height, r) == Place(elem.iNode, elem.i)
    {
      hide Summed, Sum, OnLevel, FirstLeaf, Pow2, Item, Descending;
      var i, node := i0, root;
      ghost var h := h0;
      DescendStart(v[..], height, root, h0, i0);
      ghost var first := FirstLeaf(root, h0);
      DescendFacts(v[..], height, first, node, h, i, i0);
      while !IsLeaf(node)
        invariant 0 <= h && 0 <= node < v.Length && (h == 0 <==> IsLeaf(node))
        invariant Descending(v[..], height, first, node, h, i, i0)
        decreases h
      {
        DescendStep(v[..], height, first, node, h, i, i0);
        var iRoot := v[ILeft(node)];
        if i <= iRoot {
          node := ILeft(node);
        } else {
          node := IRight(node);
          i := i - iRoot;
        }
        h := h - 1;
        DescendFacts(v[..], height, first, node, h, i, i0);
      }
      elem := Element(node, i - 1);
      DescendEnd(v[..], height, first, node, i, i0);
    }

    /** The parent of the nearest left child on the way up: the next subtree to the right hangs there. */
    method SubtreeUpperBound(node0: int, ghost h0: int) returns (p: int, ghost h: int)
      requires Valid() && OnLevel(node0, h0, height) && FirstLeaf(node0 + 1, h0) < 2 * ceilNLeaves - 1
      ensures h0 < h && OnLevel(p, h, height) && 0 <= p
      ensures FirstLeaf(IRight(p), h - 1) == FirstLeaf(node0 + 1, h0)
    {
      hide OnLevel, FirstLeaf, Pow2;
      var node := node0;
      h := h0;
      NotRoot(node, h);
      while IsRight(node)
        invariant 0 <= h0 <= h && OnLevel(node, h, height)
        invariant FirstLeaf(node + 1, h) == FirstLeaf(node0 + 1, h0)
        decreases node
      {
        NotRoot(node, h);
        Up(node, h);
        node := IParent(node);
        h := h + 1;
      }
      NotRoot(node, h);
      Up(node, h);
      p := IParent(node);
      h := h + 1;
    }

    /** The parent stands one level higher; it ends where a right child ends and its right child begins
        where a left one ends. */
    lemma Up(node: int, h: int)
      requires OnLevel(node, h, height) && 0 < node
      ensures OnLevel(IParent(node), h + 1, height) && 0 <= h && 0 <= IParent(node) < node
      ensures if IsRight(node) then FirstLeaf(IParent(node) + 1, h + 1) == FirstLeaf(node + 1, h) && IRight(IParent(node)) == node
              else FirstLeaf(IParent(node), h + 1) == FirstLeaf(node, h) && IRight(IParent(node)) == node + 1
    {
      ParentLevel(node, h, height);
    }

    lemma NotRoot(node: int, h: int)
      requires OnLevel(node, h, height)
      ensures 0 <= node && 0 <= h
      ensures node == 0 ==> FirstLeaf(node, h) == Pow2(height) - 1 && FirstLeaf(node + 1, h) == 2 * Pow2(height) - 1
    {
      if node == 0 {
        RootLevel(h, height);
        RootLeaves(height);
      }
    }

    /** The mirror image: the next subtree to the left hangs at the result. */
    method SubtreeLowerBound(node0: int, ghost h0: int) returns (p: int, ghost h: int)
      requires Valid() && OnLevel(node0, h0, height) && BeginLeaves() < FirstLeaf(node0, h0)
      ensures h0 < h && OnLevel(p, h, height) && 0 <= p
      ensures FirstLeaf(IRight(p), h - 1) == FirstLeaf(node0, h0)
    {
      hide OnLevel, FirstLeaf, Pow2;
      var node := node0;
      h := h0;
      NotRoot(node, h);
      while IsLeft(node)
        invariant 0 <= h0 <= h && OnLevel(node, h, height) && 0 <= node
        invariant FirstLeaf(node, h) == FirstLeaf(node0, h0)
        decreases node
      {
        Up(node, h);
        node := IParent(node);
        h := h + 1;
      }
      NotRoot(node, h);
      Up(node, h);
      p := IParent(node);
      h := h + 1;
    }

    // ----- the items that are misplaced -----

    /** The r-th element, in leaf order, that fails the predicate below the cut of its leaf's share. */
    ghost function RightItem(r: int): Element
      requires Valid() && Summed(misR[..], height) && 0 <= r < misR[0]
      reads sizeL, misR
    {
      var p := Item(misR[..], height, r);
      Element(p.leaf, sizeL[p.leaf] + p.k)
    }

    /** The r-th element, in leaf order, that satisfies the predicate above it. */
    ghost function LeftItem(r: int): Element
      requires Valid() && Summed(misL[..], height) && 0 <= r < misL[0]
      reads sizeL, misL
    {
      var p := Item(misL[..], height, r);
      Element(p.leaf, sizeL[p.leaf] - misL[p.leaf] + p.k)
    }

    /** The next subtree to the right holds the target or lies before it. */
    method ClimbRight(node0: int, ghost h0: int, ghost inc: int, ghost target: int) returns (node: int, ghost h: int)
      requires Valid() && Summed(misR[..], height) && Beyond(misR[..], height, node0, h0, inc, target)
      ensures Seeking(misR[..], height, node, h, inc - 1, target) && h0 < h
    {
      EndInside(misR[..], height, node0, h0, inc, target);
      node, h := SubtreeUpperBound(node0, h0);
      RightChild(misR[..], height, node, h);
    }

    method ClimbLeft(node0: int, ghost h0: int, ghost dec: int, ghost target: int) returns (node: int, ghost h: int)
      requires Valid() && Summed(misL[..], height) && Before(misL[..], height, node0, h0, dec, target)
      ensures Seeking(misL[..], height, node, h, -dec, target) && h0 < h
    {
      StartInside(misL[..], height, node0, h0, dec, target);
      node, h := SubtreeLowerBound(node0, h0);
      RightChild(misL[..], height, node, h);
    }

    /** Up past subtrees that hold too few items, then down to the inc-th of the next one. */
    method SeekRight(leaf: int, inc0: int, ghost target: int) returns (elem: Element)
      requires Valid() && Summed(misR[..], height) && BeginLeaves() <= leaf < misR.Length && 1 <= inc0
      requires Sum(misR[..], BeginLeaves(), leaf + 1) + inc0 - 1 == target < misR[0]
      ensures 0 <= target && Item(misR[..], height, target) == Place(elem.iNode, elem.i)
    {
      hide Summed, Sum, OnLevel, FirstLeaf, Pow2, Item, Seeking, Beyond;
      var inc := inc0;
      LeafBeyond(misR[..], height, leaf, inc, target);
      var node, h := ClimbRight(leaf, 0, inc, target);
      SeekFacts(misR[..], height, node, h, inc - 1, target);
      var rInc := misR[IRight(node)];
      while inc > rInc
        invariant 0 < h <= height && 0 <= node && IRight(node) < misR.Length
        invariant Seeking(misR[..], height, node, h, inc - 1, target) && rInc == misR[IRight(node)] && 1 <= inc
        decreases height - h
      {
        SeekOnward(misR[..], height, node, h, inc, target);
        BeyondBy(misR[..], height, node, h, inc - rInc, target);
        inc := inc - rInc;
        node, h := ClimbRight(node, h, inc, target);
        SeekFacts(misR[..], height, node, h, inc - 1, target);
        rInc := misR[IRight(node)];
      }
      SeekChild(misR[..], height, node, h, inc - 1, target);
      elem := Ith(inc, IRight(node), misR, h - 1);
    }

    method SeekLeft(leaf: int, dec0: int, ghost target: int) returns (elem: Element)
      requires Valid() && Summed(misL[..], height) && BeginLeaves() <= leaf < misL.Length && 1 <= dec0
      requires 0 <= target && Sum(misL[..], BeginLeaves(), leaf) - dec0 == target
      ensures target < misL[0] && Item(misL[..], height, target) == Place(elem.iNode, elem.i)
    {
      hide Summed, Sum, OnLevel, FirstLeaf, Pow2, Item, Seeking, Before;
      var dec := dec0;
      LeafBefore(misL[..], height, leaf, dec, target);
      var node, h := ClimbLeft(leaf, 0, dec, target);
      SeekFacts(misL[..], height, node, h, -dec, target);
      var lDec := misL[ILeft(node)];
      while dec > lDec
        invariant 0 < h <= height && 0 <= node && IRight(node) < misL.Length
        invariant Seeking(misL[..], height, node, h, -dec, target) && lDec == misL[ILeft(node)] && 1 <= dec
        decreases height - h
      {
        SeekBack(misL[..], height, node, h, dec, target);
        BeforeBy(misL[..], height, node, h, dec - lDec, target);
        dec := dec - lDec;
        node, h := ClimbLeft(node, h, dec, target);
        SeekFacts(misL[..], height, node, h, -dec, target);
        lDec := misL[ILeft(node)];
      }
      SeekChild(misL[..], height, node, h, -dec, target);
      elem := Ith(lDec - dec + 1, ILeft(node), misL, h - 1);
    }

    /** From the r-th misplaced element on the right, moving on by inc gives the one of rank r + inc. */
    method AdvanceR(inc0: int, elem0: Element, ghost r: int) returns (elem: Element)
      requires Valid() && Summed(misR[..], height)
      requires 0 <= r && 0 <= inc0 && r + inc0 < misR[0] && elem0 == RightItem(r)
      ensures elem == RightItem(r + inc0)
    {
      hide Summed, Sum, Pow2, Item;
      var node := elem0.iNode;
      ItemRank(misR[..], height, r);
      var rInc := sizeL[node] + misR[node] - (elem0.i + 1);
      if rInc >= inc0 {
        elem := Element(node, elem0.i + inc0);
        ItemIs(misR[..], height, node, elem.i - sizeL[node]);
      } else {
        SumStep(misR[..], BeginLeaves(), node);
        elem := SeekRight(node, inc0 - rInc, r + inc0);
        elem := elem.(i := elem.i + sizeL[elem.iNode]);
      }
    }

    /** From the r-th misplaced element on the left, moving back by dec gives the one of rank r - dec. */
    method BackwardL(dec0: int, elem0: Element, ghost r: int) returns (elem: Element)
      requires Valid() && Summed(misL[..], height)
      requires 0 <= dec0 <= r < misL[0] && elem0 == LeftItem(r)
      ensures elem == LeftItem(r - dec0)
    {
      hide Summed, Sum, Pow2, Item;
      var node := elem0.iNode;
      ItemRank(misL[..], height, r);
      var lDec := elem0.i - (sizeL[node] - misL[node]);
      if lDec >= dec0 {
        elem := Element(node, elem0.i - dec0);
        ItemIs(misL[..], height, node, lDec - dec0);
      } else {
        elem := SeekLeft(node, dec0 - lDec, r - dec0);
        elem := elem.(i := elem.i + (sizeL[elem.iNode] - misL[elem.iNode]));
      }
    }
  }
}
