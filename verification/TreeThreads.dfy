/** The threads of the first variant of parallel_partition.h, phase by phase between barriers. */
module TreeThreads {
  import opened Orders
  import opened SumTree
  import opened ArrayTree
  import opened Schedules
  import opened Strides
  import opened TreePartition

  ghost predicate Apart<T>(a: array<T>, tree: Tree) {
    && (a as object) != tree.sizeL && (a as object) != tree.misL && (a as object) != tree.misR
  }

  /** Which thread takes the next step: in the phases between barriers, and in each level of the two
      reductions, given by the number of threads it uses. */
  datatype Scheduler = Scheduler(local: int -> nat, sizes: int -> int -> nat, misplaced: int -> nat,
                                 counts: int -> int -> nat, swaps: int -> nat)

  // ----- one thread's swaps -----

  /** The next leaf with misplaced elements on the right. */
  method NextLeaf(tree: Tree, node0: int, ghost r: int) returns (node: int)
    requires tree.Valid() && Summed(tree.misR[..], tree.height) && tree.BeginLeaves() <= node0 < tree.misR.Length
    requires Sum(tree.misR[..], tree.BeginLeaves(), node0 + 1) == r < tree.misR[0]
    ensures tree.BeginLeaves() <= node < tree.misR.Length && tree.misR[node] > 0
    ensures Sum(tree.misR[..], tree.BeginLeaves(), node) == r
  {
    Total(tree.misR[..], tree.height);
    node := node0 + 1;
    while tree.misR[node] == 0
      invariant tree.BeginLeaves() <= node < tree.misR.Length
      invariant Sum(tree.misR[..], tree.BeginLeaves(), node) == r
      decreases tree.misR.Length - node
    {
      SumStep(tree.misR[..], tree.BeginLeaves(), node);
      node := node + 1;
    }
  }

  /** After moving on by `loop` within its run, goes to the next leaf that has misplaced elements
      if the run is used up and more are wanted. */
  method StepRight(tree: Tree, first0: Element, loop: int, more: bool, ghost r: int) returns (first: Element)
    requires tree.Valid() && Summed(tree.misR[..], tree.height) && 0 <= r < tree.misR[0] && first0 == tree.RightItem(r)
    requires 0 < loop <= tree.misR[first0.iNode] - (first0.i - tree.sizeL[first0.iNode])
    requires more ==> r + loop < tree.misR[0]
    ensures more ==> first == tree.RightItem(r + loop)
  {
    hide Summed, Sum, Item;
    var node := first0.iNode;
    first := Element(node, first0.i + loop);
    ghost var f := tree.BeginLeaves();
    ItemRank(tree.misR[..], tree.height, r);
    if first.i == tree.sizeL[node] + tree.misR[node] && more {
      SumStep(tree.misR[..], f, node);
      node := NextLeaf(tree, node, r + loop);
      ItemIs(tree.misR[..], tree.height, node, 0);
      first := Element(node, tree.sizeL[node]);
    } else if more {
      ItemIs(tree.misR[..], tree.height, node, first.i - tree.sizeL[node]);
    }
  }

  /** The previous leaf with misplaced elements on the left. */
  method PrevLeaf(tree: Tree, node0: int, ghost r: int) returns (node: int)
    requires tree.Valid() && Summed(tree.misL[..], tree.height) && tree.BeginLeaves() <= node0 + 1 <= tree.misL.Length
    requires 0 < r == Sum(tree.misL[..], tree.BeginLeaves(), node0 + 1)
    ensures tree.BeginLeaves() <= node <= node0 && 0 < tree.misL[node]
    ensures Sum(tree.misL[..], tree.BeginLeaves(), node) + tree.misL[node] == r
  {
    node := node0;
    while tree.misL[node] == 0
      invariant tree.BeginLeaves() <= node <= node0
      invariant Sum(tree.misL[..], tree.BeginLeaves(), node + 1) == r
      decreases node
    {
      node := node - 1;
    }
  }

  /** The mirror image on the left. */
  method StepLeft(tree: Tree, last0: Element, loop: int, more: bool, ghost r: int) returns (last: Element)
    requires tree.Valid() && Summed(tree.misL[..], tree.height) && 0 <= r < tree.misL[0] && last0 == tree.LeftItem(r)
    requires 0 < loop <= tree.misL[last0.iNode] - (tree.sizeL[last0.iNode] - (last0.i + 1))
    requires more ==> 0 <= r - loop
    ensures more ==> last == tree.LeftItem(r - loop)
  {
    hide Summed, Sum, Item;
    var node := last0.iNode;
    var i := last0.i - (loop - 1);
    ghost var f := tree.BeginLeaves();
    ItemRank(tree.misL[..], tree.height, r);
    if i == tree.sizeL[node] - tree.misL[node] && more {
      assert Sum(tree.misL[..], f, node) == r - loop + 1;
      node := PrevLeaf(tree, node - 1, r - loop + 1);
      ItemIs(tree.misL[..], tree.height, node, tree.misL[node] - 1);
      i := tree.sizeL[node];
    } else if more {
      ItemIs(tree.misL[..], tree.height, node, i - 1 - (tree.sizeL[node] - tree.misL[node]));
    }
    last := Element(node, i - 1);
  }

  /** The tree holds the counts for the contents s. */
  ghost predicate Holds<T(!new)>(tree: Tree, pred: T -> bool, s: seq<T>, total: int)
    reads tree.sizeL, tree.misL, tree.misR
  {
    && tree.Valid()
    && Counted(tree.nLeaves, |s|, tree.height, tree.sizeL[..], tree.misL[..], tree.misR[..], total)
    && LocallySplit(pred, s, tree.nLeaves, tree.height, tree.sizeL[..])
  }

  lemma PairInside<T(!new)>(s: seq<T>, t: seq<T>, rc: seq<int>, lc: seq<int>, done: set<int>, j: int)
    requires Exchanged(s, t, rc, lc, done) && 0 <= j < |rc|
    ensures |rc| == |lc| && 0 <= rc[j] < |t| && 0 <= lc[j] < |t|
  {
  }

  /** Within a run the i-th cell from an item is the cell of the item i ranks on. */
  lemma RunCells(tree: Tree, first: Element, last: Element, d: int, i: int)
    requires tree.Valid() && Summed(tree.sizeL[..], tree.height) && Summed(tree.misL[..], tree.height) && Summed(tree.misR[..], tree.height)
    requires 0 <= d < tree.misR[0] == tree.misL[0] && 0 <= i
    requires first == tree.RightItem(d) && last == tree.LeftItem(tree.misL[0] - 1 - d)
    requires i < tree.misR[first.iNode] - (first.i - tree.sizeL[first.iNode])
    requires i < tree.misL[last.iNode] - (tree.sizeL[last.iNode] - (last.i + 1))
    ensures d + i < tree.misR[0]
    ensures RightCell(tree.nLeaves, tree.height, tree.sizeL[..], tree.misR[..], d + i)
            == Pos(tree.nLeaves, first.iNode - tree.BeginLeaves(), first.i + i)
    ensures LeftCell(tree.nLeaves, tree.height, tree.sizeL[..], tree.misL[..], tree.misL[0] - 1 - (d + i))
            == Pos(tree.nLeaves, last.iNode - tree.BeginLeaves(), last.i - i)
  {
    ItemOn(tree.misR[..], tree.height, d, i);
    ItemOn(tree.misL[..], tree.height, tree.misL[0] - 1 - d, -i);
  }

  lemma ItemOn(v: seq<int>, top: nat, r: int, i: int)
    requires Summed(v, top) && 0 <= r < v[0]
    requires var q := Item(v, top, r); 0 <= q.k + i < v[q.leaf]
    ensures 0 <= r + i < v[0]
    ensures var q := Item(v, top, r); Item(v, top, r + i) == Place(q.leaf, q.k + i)
  {
    ItemRank(v, top, r);
    ItemIs(v, top, Item(v, top, r).leaf, Item(v, top, r).k + i);
  }

  /** So a run's cells lie p apart. */
  lemma RunIsStrided(tree: Tree, first: Element, last: Element, d: int, loop: int, rc: seq<int>, lc: seq<int>)
    requires tree.Valid() && Summed(tree.sizeL[..], tree.height) && Summed(tree.misL[..], tree.height) && Summed(tree.misR[..], tree.height)
    requires 0 <= d < tree.misR[0] == tree.misL[0]
    requires rc == RightCells(tree.nLeaves, tree.height, tree.sizeL[..], tree.misR[..])
    requires lc == LeftCells(tree.nLeaves, tree.height, tree.sizeL[..], tree.misL[..])
    requires first == tree.RightItem(d) && last == tree.LeftItem(tree.misL[0] - 1 - d)
    requires 0 < loop <= tree.misR[first.iNode] - (first.i - tree.sizeL[first.iNode])
    requires loop <= tree.misL[last.iNode] - (tree.sizeL[last.iNode] - (last.i + 1))
    ensures d + loop <= |rc| == |lc|
    ensures forall i :: 0 <= i < loop ==>
              && rc[d + i] == Pos(tree.nLeaves, first.iNode - tree.BeginLeaves(), first.i) + i * tree.nLeaves
              && lc[d + i] == Pos(tree.nLeaves, last.iNode - tree.BeginLeaves(), last.i) - i * tree.nLeaves
  {
    hide Summed, RightCell, LeftCell, Tree.RightItem, Tree.LeftItem, Pos, Item;
    RunCells(tree, first, last, d, loop - 1);
    forall i | 0 <= i < loop
      ensures rc[d + i] == Pos(tree.nLeaves, first.iNode - tree.BeginLeaves(), first.i) + i * tree.nLeaves
      ensures lc[d + i] == Pos(tree.nLeaves, last.iNode - tree.BeginLeaves(), last.i) - i * tree.nLeaves
    {
      RunCells(tree, first, last, d, i);
      Stride(tree.nLeaves, first.iNode - tree.BeginLeaves(), first.i, i);
      Stride(tree.nLeaves, last.iNode - tree.BeginLeaves(), last.i, -i);
    }
  }

  lemma Stride(p: int, id: int, j: int, i: int)
    ensures Pos(p, id, j + i) == Pos(p, id, j) + i * p
  {
    assert (j + i) * p == j * p + i * p;
  }

  /** Both items have at least themselves left in their runs. */
  lemma InItsLeaf(tree: Tree, first: Element, last: Element, r: int, l: int)
    requires tree.Valid() && Summed(tree.misL[..], tree.height) && Summed(tree.misR[..], tree.height)
    requires 0 <= r < tree.misR[0] && 0 <= l < tree.misL[0]
    requires first == tree.RightItem(r) && last == tree.LeftItem(l)
    ensures 0 <= first.iNode < tree.sizeL.Length && 0 <= last.iNode < tree.sizeL.Length
    ensures first.i - tree.sizeL[first.iNode] < tree.misR[first.iNode]
    ensures tree.sizeL[last.iNode] - (last.i + 1) < tree.misL[last.iNode]
  {
  }

  // ----- the steps of a thread that swaps -----

  /** A thread in the swap phase: `size` pairs are left from the start of its current run on; the run
      has `loop` pairs of which `i` are exchanged. */
  datatype Walker = Walker(started: bool, first: Element, last: Element, size: int, loop: int, i: int, firstIt: int, lastIt: int)

  /** The tree as the swap phase finds it. */
  ghost predicate Ready(tree: Tree)
    reads tree.sizeL, tree.misL, tree.misR
  {
    && tree.Valid() && Summed(tree.sizeL[..], tree.height) && Summed(tree.misL[..], tree.height) && Summed(tree.misR[..], tree.height)
    && 0 < tree.misL[0] == tree.misR[0]
  }

  /** The pairs of thread id are Begin .. Begin + Count - 1. */
  ghost function Begin(tree: Tree, id: int): int
    requires tree.Valid() && 0 <= id < tree.nLeaves
    reads tree.misL
  {
    ShareSum(tree.nLeaves, tree.misL[0], id)
  }

  ghost function Count(tree: Tree, id: int): int
    requires tree.Valid()
    reads tree.misL
  {
    Share(tree.nLeaves, tree.misL[0], id)
  }

  lemma PairsInside(tree: Tree, id: int)
    requires Ready(tree) && 0 <= id < tree.nLeaves
    ensures 0 <= Begin(tree, id) && 0 <= Count(tree, id) && Begin(tree, id) + Count(tree, id) <= tree.misL[0]
  {
    hide Summed;
    ShareSpan(tree.nLeaves, tree.misL[0], id);
  }

  /** How many of its pairs a thread has exchanged, and how much work it has left. */
  function Progress(w: Walker, count: int): int {
    if w.started then count - w.size + w.i else 0
  }

  function WorkLeft(w: Walker, count: int): int {
    if !w.started then 3 * count + 1
    else 3 * w.size - w.i - (if w.loop > 0 then 1 else 0)
  }

  predicate Finished(w: Walker) {
    w.started && w.size == 0
  }

  /** The pair that starts the current run is number d. */
  ghost predicate AtPair(tree: Tree, w: Walker, d: int)
    requires Ready(tree)
    reads tree.sizeL, tree.misL, tree.misR
  {
    && 0 <= d < tree.misR[0]
    && w.first == tree.RightItem(d) && w.last == tree.LeftItem(tree.misL[0] - 1 - d)
  }

  /** The run lies within one leaf on either side, and the iterators have come i cells far. */
  ghost predicate InRun(tree: Tree, w: Walker)
    requires tree.Valid()
    reads tree.sizeL, tree.misL, tree.misR
  {
    && 0 <= w.first.iNode < tree.sizeL.Length && 0 <= w.last.iNode < tree.sizeL.Length
    && w.loop <= tree.misR[w.first.iNode] - (w.first.i - tree.sizeL[w.first.iNode])
    && w.loop <= tree.misL[w.last.iNode] - (tree.sizeL[w.last.iNode] - (w.last.i + 1))
    && w.firstIt == Pos(tree.nLeaves, w.first.iNode - tree.BeginLeaves(), w.first.i) + w.i * tree.nLeaves
    && w.lastIt == Pos(tree.nLeaves, w.last.iNode - tree.BeginLeaves(), w.last.i) - w.i * tree.nLeaves
  }

  ghost predicate WalkerOk(tree: Tree, w: Walker, id: int)
    requires Ready(tree) && 0 <= id < tree.nLeaves
    reads tree.sizeL, tree.misL, tree.misR
  {
    w.started ==>
      && 0 <= w.i <= w.loop <= w.size <= Count(tree, id)
      && (w.size > 0 ==> AtPair(tree, w, Begin(tree, id) + Count(tree, id) - w.size))
      && (w.loop > 0 ==> InRun(tree, w))
  }

  /** Works out the thread's share and finds its first pair. */
  method StartWalk(tree: Tree, firstEl: Element, lastEl: Element, id: int, w0: Walker) returns (w: Walker)
    requires Ready(tree) && 0 <= id < tree.nLeaves && !w0.started
    requires firstEl == tree.RightItem(0) && lastEl == tree.LeftItem(tree.misL[0] - 1)
    ensures WalkerOk(tree, w, id) && Progress(w, Count(tree, id)) == Progress(w0, Count(tree, id))
    ensures 0 <= WorkLeft(w, Count(tree, id)) < WorkLeft(w0, Count(tree, id))
  {
    hide Summed, ShareSum, Share, Tree.RightItem, Tree.LeftItem;
    PairsInside(tree, id);
    var count, first, last := CalculateElementsToSwap(tree, firstEl, lastEl, id);
    w := Walker(true, first, last, count, 0, 0, 0, 0);
  }

  /** A run goes as far as both leaves and the thread's own share allow. */
  method BeginRun(tree: Tree, id: int, w0: Walker) returns (w: Walker)
    requires Ready(tree) && 0 <= id < tree.nLeaves && WalkerOk(tree, w0, id) && w0.started && w0.size > 0 && w0.loop == 0
    ensures WalkerOk(tree, w, id) && Progress(w, Count(tree, id)) == Progress(w0, Count(tree, id))
    ensures 0 <= WorkLeft(w, Count(tree, id)) < WorkLeft(w0, Count(tree, id))
  {
    hide Summed, ShareSum, Share, Tree.RightItem, Tree.LeftItem, Pos;
    ghost var d := Begin(tree, id) + Count(tree, id) - w0.size;
    InItsLeaf(tree, w0.first, w0.last, d, tree.misL[0] - 1 - d);
    var first, last := w0.first, w0.last;
    var misRight := tree.misR[first.iNode] - (first.i - tree.sizeL[first.iNode]);
    var misLeft := tree.misL[last.iNode] - (tree.sizeL[last.iNode] - (last.i + 1));
    var loop := if misLeft < misRight then misLeft else misRight;
    loop := if w0.size < loop then w0.size else loop;
    w := Walker(true, first, last, w0.size, loop, 0, Pos(tree.nLeaves, first.iNode - tree.BeginLeaves(), first.i),
                Pos(tree.nLeaves, last.iNode - tree.BeginLeaves(), last.i));
  }

  /** What holds of the numbers of any walker that has started. */
  lemma WalkerParts(tree: Tree, w: Walker, id: int)
    requires Ready(tree) && 0 <= id < tree.nLeaves && WalkerOk(tree, w, id) && w.started
    ensures tree.Valid() && 0 <= w.i <= w.loop <= w.size <= Count(tree, id)
  {
  }

  /** The iterators stand on the cells of the next pair. */
  lemma OnPair(tree: Tree, id: int, w: Walker, rc: seq<int>, lc: seq<int>)
    requires Ready(tree) && 0 <= id < tree.nLeaves && WalkerOk(tree, w, id) && w.started && w.i < w.loop
    requires rc == RightCells(tree.nLeaves, tree.height, tree.sizeL[..], tree.misR[..])
    requires lc == LeftCells(tree.nLeaves, tree.height, tree.sizeL[..], tree.misL[..])
    ensures var j := Begin(tree, id) + Progress(w, Count(tree, id));
            0 <= j < |rc| == |lc| && rc[j] == w.firstIt && lc[j] == w.lastIt
  {
    hide Summed, ShareSum, Share, Tree.RightItem, Tree.LeftItem, Pos, RightCells, LeftCells;
    var d := Begin(tree, id) + Count(tree, id) - w.size;
    RunIsStrided(tree, w.first, w.last, d, w.loop, rc, lc);
    assert rc[d + w.i] == w.firstIt && lc[d + w.i] == w.lastIt;
  }

  /** The walker after the exchange of a pair. */
  function PairDone(w: Walker, p: int): Walker {
    w.(i := w.i + 1, firstIt := w.firstIt + p, lastIt := w.lastIt - p)
  }

  lemma WalkerOn(tree: Tree, id: int, w: Walker)
    requires Ready(tree) && 0 <= id < tree.nLeaves && WalkerOk(tree, w, id) && w.started && w.i < w.loop
    ensures WalkerOk(tree, PairDone(w, tree.nLeaves), id)
  {
    hide Summed, ShareSum, Share, Tree.RightItem, Tree.LeftItem, Pos;
    assert (w.i + 1) * tree.nLeaves == w.i * tree.nLeaves + tree.nLeaves;
  }

  /** Exchanges one pair of the run. */
  method ExchangePair<T(!new)>(tree: Tree, a: array<T>, id: int, w0: Walker, ghost rc: seq<int>, ghost lc: seq<int>,
                               ghost s: seq<T>, ghost done: set<int>)
    returns (w: Walker)
    requires Ready(tree) && Apart(a, tree) && 0 <= id < tree.nLeaves && WalkerOk(tree, w0, id) && w0.started && w0.i < w0.loop
    requires rc == RightCells(tree.nLeaves, tree.height, tree.sizeL[..], tree.misR[..])
    requires lc == LeftCells(tree.nLeaves, tree.height, tree.sizeL[..], tree.misL[..])
    requires Exchanged(s, a[..], rc, lc, done) && Begin(tree, id) + Progress(w0, Count(tree, id)) !in done
    modifies a
    ensures WalkerOk(tree, w, id) && Progress(w, Count(tree, id)) == Progress(w0, Count(tree, id)) + 1
    ensures 0 <= WorkLeft(w, Count(tree, id)) < WorkLeft(w0, Count(tree, id))
    ensures Exchanged(s, a[..], rc, lc, done + {Begin(tree, id) + Progress(w0, Count(tree, id))})
  {
    hide Ready, WalkerOk, Begin, Count, Exchanged, RightCells, LeftCells, RightCell, LeftCell, Summed, Tree.Valid;
    WalkerParts(tree, w0, id);
    OnPair(tree, id, w0, rc, lc);
    WalkerOn(tree, id, w0);
    var firstIt, lastIt := w0.firstIt, w0.lastIt;
    ghost var j := Begin(tree, id) + Progress(w0, Count(tree, id));
    PairInside(s, a[..], rc, lc, done, j);
    PairStep(s, a[..], a[..][firstIt := a[lastIt]][lastIt := a[firstIt]], rc, lc, done, j);
    a[firstIt], a[lastIt] := a[lastIt], a[firstIt];
    w := PairDone(w0, tree.nLeaves);
  }

  /** Goes on behind the run, to other leaves if it has used one up. */
  method EndRun(tree: Tree, id: int, w0: Walker) returns (w: Walker)
    requires Ready(tree) && 0 <= id < tree.nLeaves && WalkerOk(tree, w0, id) && w0.started && 0 < w0.i == w0.loop
    ensures WalkerOk(tree, w, id) && Progress(w, Count(tree, id)) == Progress(w0, Count(tree, id))
    ensures 0 <= WorkLeft(w, Count(tree, id)) < WorkLeft(w0, Count(tree, id))
  {
    hide Summed, ShareSum, Share, Tree.RightItem, Tree.LeftItem, Pos;
    PairsInside(tree, id);
    ghost var d := Begin(tree, id) + Count(tree, id) - w0.size;
    var size := w0.size - w0.loop;
    var first := StepRight(tree, w0.first, w0.loop, size > 0, d);
    var last := StepLeft(tree, w0.last, w0.loop, size > 0, tree.misL[0] - 1 - d);
    w := Walker(true, first, last, size, 0, 0, 0, 0);
  }

  // ----- the phases between barriers -----

  /** A cell is determined by its stride and its place in it. */
  lemma OnlyAt(p: int, n: int, id: int)
    requires 0 <= id < p
    ensures forall x, y {:trigger Col(p, x), Col(p, y)} :: 0 <= x < n && 0 <= y < n && Col(p, x) == id && Col(p, y) == id && Row(p, x) == Row(p, y) ==> x == y
  {
    forall x, y {:trigger Col(p, x), Col(p, y)} | 0 <= x < n && 0 <= y < n && Col(p, x) == id && Col(p, y) == id && Row(p, x) == Row(p, y)
      ensures x == y
    {
      PosOf(p, x);
      PosOf(p, y);
    }
  }

  /** Stride id is partitioned between rows lo and hi: in between nothing is known. */
  ghost predicate StrideSplit<T(!new)>(pred: T -> bool, s: seq<T>, p: int, id: int, lo: int, hi: int) {
    && 0 < p
    && (forall x :: 0 <= x < |s| && Col(p, x) == id && Row(p, x) < lo ==> pred(s[x]))
    && (forall x :: 0 <= x < |s| && Col(p, x) == id && hi <= Row(p, x) ==> !pred(s[x]))
  }

  /** t differs from s by a permutation of stride id. */
  ghost predicate StridePermuted<T(!new)>(s: seq<T>, t: seq<T>, p: int, id: int) {
    && 0 < p && |s| == |t| && multiset(s) == multiset(t)
    && (forall x :: 0 <= x < |s| && Col(p, x) != id ==> s[x] == t[x])
  }

  lemma StrideSwap<T(!new)>(pred: T -> bool, s: seq<T>, t: seq<T>, p: int, id: int, lo: int, hi: int)
    requires 0 <= id < p && 0 <= lo < hi <= Share(p, |s|, id) && StrideSplit(pred, s, p, id, lo, hi)
    requires var x, y := Pos(p, id, lo), Pos(p, id, hi - 1);
             0 <= x < |s| && 0 <= y < |s| && !pred(s[x]) && t == s[x := s[y]][y := s[x]]
    ensures StrideSplit(pred, t, p, id, lo, hi - 1) && StridePermuted(s, t, p, id)
  {
    var x, y := Pos(p, id, lo), Pos(p, id, hi - 1);
    PosDivMod(p, id, lo);
    PosDivMod(p, id, hi - 1);
    OnlyAt(p, |s|, id);
    hide Row, Col;
    SwapPermutes(s, t, x, y, 0, |s|);
  }

  lemma StrideNext<T(!new)>(pred: T -> bool, s: seq<T>, p: int, id: int, lo: int, hi: int)
    requires 0 <= id < p && 0 <= lo < hi <= Share(p, |s|, id) && StrideSplit(pred, s, p, id, lo, hi)
    requires 0 <= Pos(p, id, lo) < |s| && pred(s[Pos(p, id, lo)])
    ensures StrideSplit(pred, s, p, id, lo + 1, hi)
  {
    PosDivMod(p, id, lo);
    OnlyAt(p, |s|, id);
  }

  lemma RowBounds(p: int, n: int, id: int)
    requires 0 <= id < p && 0 <= n
    ensures forall x :: 0 <= x < n && Col(p, x) == id ==> 0 <= Row(p, x) < Share(p, n, id)
  {
    forall x | 0 <= x < n && Col(p, x) == id
      ensures 0 <= Row(p, x) < Share(p, n, id)
    {
      PosOf(p, x);
      PosBelow(p, n, id, Row(p, x));
    }
  }

  /** One turn of the partition of one stride, which stands for std::partition over a strided iterator. */
  method StridedTurn<T(!new)>(a: array<T>, id: int, p: int, pred: T -> bool, cut0: int, hi0: int) returns (cut: int, hi: int)
    requires 0 <= id < p && 0 <= cut0 < hi0 <= Share(p, a.Length, id) && StrideSplit(pred, a[..], p, id, cut0, hi0)
    modifies a
    ensures StridePermuted(old(a[..]), a[..], p, id)
    ensures cut0 <= cut <= hi <= hi0 && hi - cut == hi0 - cut0 - 1 && StrideSplit(pred, a[..], p, id, cut, hi)
  {
    hide StrideSplit, Share;
    cut, hi := cut0, hi0;
    var x, y := Pos(p, id, cut), Pos(p, id, hi - 1);
    PosDivMod(p, id, cut);
    PosDivMod(p, id, hi - 1);
    PosBelow(p, a.Length, id, cut);
    PosBelow(p, a.Length, id, hi - 1);
    if pred(a[x]) {
      StrideNext(pred, a[..], p, id, cut, hi);
      cut := cut + 1;
    } else {
      StrideSwap(pred, a[..], a[..][x := a[y]][y := a[x]], p, id, cut, hi);
      a[x], a[y] := a[y], a[x];
      hi := hi - 1;
    }
  }

  /** Work on one stride leaves the others as they are. */
  lemma StrideKept<T(!new)>(pred: T -> bool, s: seq<T>, t: seq<T>, p: int, id: int, other: int, lo: int, hi: int)
    requires StridePermuted(s, t, p, id) && StrideSplit(pred, s, p, other, lo, hi) && other != id
    ensures StrideSplit(pred, t, p, other, lo, hi)
  {
    hide Row, Col;
  }

  lemma StrideStart<T(!new)>(pred: T -> bool, s: seq<T>, p: int, id: int, hi: int)
    requires 0 <= id < p && hi == Share(p, |s|, id)
    ensures StrideSplit(pred, s, p, id, 0, hi)
  {
    RowBounds(p, |s|, id);
  }

  ghost predicate SizeFits(p: int, n: int, f: int, sz: seq<int>, k: int)
    requires 0 < p && 0 <= f + k < |sz|
  {
    0 <= sz[f + k] <= Share(p, n, k)
  }

  /** A thread in the local phase: between rows cut and hi of its stride nothing is known. */
  datatype Splitting = Splitting(cut: int, hi: int, stored: bool)

  function SplittingLeft(x: Splitting): int {
    x.hi - x.cut + (if x.stored then 0 else 1)
  }

  /** Where thread id has come: its stride is partitioned outside cut .. hi - 1, and at the end its
      leaf holds the size. */
  ghost predicate LocalAt<T(!new)>(pred: T -> bool, s: seq<T>, p: int, f: int, sz: seq<int>, id: int, x: Splitting) {
    && 0 <= id < p && 0 <= f + id < |sz| && 0 <= x.cut <= x.hi <= Share(p, |s|, id)
    && StrideSplit(pred, s, p, id, x.cut, x.hi)
    && (x.stored ==> x.cut == x.hi == sz[f + id])
  }

  ghost predicate LocalState<T(!new)>(pred: T -> bool, s: seq<T>, p: int, f: int, sz: seq<int>, regs: seq<Splitting>) {
    |regs| == p && forall id :: 0 <= id < p ==> LocalAt(pred, s, p, f, sz, id, regs[id])
  }

  lemma LocalStart<T(!new)>(pred: T -> bool, s: seq<T>, p: int, f: int, sz: seq<int>, regs: seq<Splitting>)
    requires 0 < p == |regs| && 0 <= f && f + p <= |sz|
    requires forall id :: 0 <= id < p ==> regs[id] == Splitting(0, Share(p, |s|, id), false)
    ensures LocalState(pred, s, p, f, sz, regs)
  {
    hide Share, StrideSplit;
    forall id | 0 <= id < p
      ensures LocalAt(pred, s, p, f, sz, id, regs[id])
    {
      StrideStart(pred, s, p, id, Share(p, |s|, id));
      ShareNatural(p, |s|, id);
    }
  }

  lemma ShareNatural(p: int, n: int, id: int)
    requires 0 < p && 0 <= n
    ensures 0 <= Share(p, n, id)
  {
  }

  lemma LocalTurn<T(!new)>(pred: T -> bool, s: seq<T>, t: seq<T>, p: int, f: int, sz: seq<int>, regs: seq<Splitting>,
                           id: int, x: Splitting)
    requires LocalState(pred, s, p, f, sz, regs) && 0 <= id < p && StridePermuted(s, t, p, id)
    requires LocalAt(pred, t, p, f, sz, id, x)
    ensures LocalState(pred, t, p, f, sz, regs[id := x])
  {
    hide StrideSplit, StridePermuted, Share;
    PermutedLength(s, t, p, id);
    var regs' := regs[id := x];
    forall k | 0 <= k < p
      ensures LocalAt(pred, t, p, f, sz, k, regs'[k])
    {
      assert LocalAt(pred, s, p, f, sz, k, regs[k]);
      if k != id {
        StrideKept(pred, s, t, p, id, k, regs[k].cut, regs[k].hi);
      }
    }
  }

  lemma PermutedLength<T(!new)>(s: seq<T>, t: seq<T>, p: int, id: int)
    requires StridePermuted(s, t, p, id)
    ensures |s| == |t| && multiset(s) == multiset(t)
  {
  }

  lemma LocalStored<T(!new)>(pred: T -> bool, s: seq<T>, p: int, f: int, sz: seq<int>, regs: seq<Splitting>, id: int)
    requires LocalState(pred, s, p, f, sz, regs) && 0 <= id < p && regs[id].cut == regs[id].hi
    requires 0 <= f + id < |sz|
    ensures LocalState(pred, s, p, f, sz[f + id := regs[id].cut], regs[id := regs[id].(stored := true)])
  {
    hide StrideSplit, Share;
    var sz', regs' := sz[f + id := regs[id].cut], regs[id := regs[id].(stored := true)];
    forall k | 0 <= k < p
      ensures LocalAt(pred, s, p, f, sz', k, regs'[k])
    {
      assert LocalAt(pred, s, p, f, sz, k, regs[k]);
    }
  }

  /** Once all threads have stored their sizes every stride is partitioned at the size in its leaf. */
  lemma AllLocal<T(!new)>(pred: T -> bool, s: seq<T>, p: int, f: int, top: nat, sz: seq<int>, regs: seq<Splitting>)
    requires LocalState(pred, s, p, f, sz, regs) && forall id :: 0 <= id < p ==> regs[id].stored
    requires f == Pow2(top) - 1 && 0 < p <= Pow2(top) && |sz| == 2 * Pow2(top) - 1
    ensures LocallySplit(pred, s, p, top, sz)
    ensures forall k :: 0 <= k < p ==> SizeFits(p, |s|, f, sz, k)
  {
    hide Row, Pow2, Share;
    forall k | 0 <= k < p
      ensures SizeFits(p, |s|, f, sz, k)
    {
      assert LocalAt(pred, s, p, f, sz, k, regs[k]);
    }
    forall x | 0 <= x < |s|
      ensures pred(s[x]) <==> Row(p, x) < sz[f + Col(p, x)]
    {
      ColInside(p, x);
      assert LocalAt(pred, s, p, f, sz, Col(p, x), regs[Col(p, x)]);
    }
  }

  lemma ColInside(p: int, x: int)
    requires 0 < p && 0 <= x
    ensures 0 <= Col(p, x) < p
  {
  }

  /** One step of a thread in the local phase: a turn of its partition, or storing the size. */
  method LocalStep<T(!new)>(tree: Tree, a: array<T>, pred: T -> bool, id: int, regs: array<Splitting>)
    requires Apart(a, tree) && tree.Valid() && 0 <= id < tree.nLeaves && (regs as object) != a && (regs as object) != tree.sizeL
    requires LocalState(pred, a[..], tree.nLeaves, tree.BeginLeaves(), tree.sizeL[..], regs[..]) && !regs[id].stored
    modifies a, tree.sizeL, regs
    ensures multiset(a[..]) == multiset(old(a[..]))
    ensures LocalState(pred, a[..], tree.nLeaves, tree.BeginLeaves(), tree.sizeL[..], regs[..])
    ensures regs[..] == old(regs[..])[id := regs[id]] && 0 <= SplittingLeft(regs[id]) < old(SplittingLeft(regs[id]))
    ensures regs[id].stored <==> SplittingLeft(regs[id]) == 0
    ensures forall k :: 0 <= k < tree.sizeL.Length && k != tree.BeginLeaves() + id ==> tree.sizeL[k] == old(tree.sizeL[k])
  {
    hide StridePermuted, StrideSplit, Share, Row, Pos;
    var p, f := tree.nLeaves, tree.BeginLeaves();
    ghost var s, sz, r := a[..], tree.sizeL[..], regs[..];
    var x := regs[id];
    assert LocalAt(pred, s, p, f, sz, id, x);
    if x.cut < x.hi {
      var cut, hi := StridedTurn(a, id, p, pred, x.cut, x.hi);
      PermutedLength(s, a[..], p, id);
      LocalTurn(pred, s, a[..], p, f, sz, r, id, Splitting(cut, hi, false));
      regs[id] := Splitting(cut, hi, false);
    } else {
      PosDivMod(p, id, x.cut);
      LocalStored(pred, s, p, f, sz, r, id);
      tree.sizeL[f + id] := Row(p, Pos(p, id, x.cut));
      regs[id] := x.(stored := true);
    }
  }

  /** Phase one: every thread partitions its stride and leaves the size in its leaf, turn by turn and
      interleaved in any way. */
  method LocalPhase<T(!new)>(tree: Tree, a: array<T>, pred: T -> bool, pick: int -> nat)
    requires Apart(a, tree) && tree.Valid()
    requires forall k :: 0 <= k < tree.sizeL.Length ==> tree.sizeL[k] == 0
    modifies a, tree.sizeL
    ensures multiset(a[..]) == multiset(old(a[..]))
    ensures LocallySplit(pred, a[..], tree.nLeaves, tree.height, tree.sizeL[..])
    ensures forall k :: 0 <= k < tree.nLeaves ==>
              SizeFits(tree.nLeaves, |a[..]|, tree.BeginLeaves(), tree.sizeL[..], k)
    ensures forall k :: 0 <= k < tree.BeginLeaves() || tree.BeginLeaves() + tree.nLeaves <= k < tree.sizeL.Length ==>
              tree.sizeL[k] == 0
  {
    hide LocalState, LocallySplit, Sum, Unfinished, Without;
    var p, f := tree.nLeaves, tree.BeginLeaves();
    var regs := new Splitting[p](id => Splitting(0, if 0 < p then Share(p, a.Length, id) else 0, false));
    LocalStart(pred, a[..], p, f, tree.sizeL[..], regs[..]);
    var todo, step := All(p), 0;
    ghost var work := seq(p, id requires 0 <= id < p => Share(p, a.Length, id) + 1);
    WorkAtStart(p, a.Length, work);
    while todo != []
      invariant Unfinished(todo, p) && multiset(a[..]) == multiset(old(a[..]))
      invariant LocalState(pred, a[..], p, f, tree.sizeL[..], regs[..])
      invariant |work| == p && Natural(work) && forall id :: 0 <= id < p ==> work[id] == SplittingLeft(regs[id])
      invariant forall id :: 0 <= id < p && id !in todo ==> regs[id].stored
      invariant forall k :: 0 <= k < f || f + p <= k < tree.sizeL.Length ==> tree.sizeL[k] == 0
      decreases Sum(work, 0, p) + |todo|
    {
      var j := Chosen(pick, step, todo);
      Picked(todo, j, p);
      var id := todo[j];
      if !regs[id].stored {
        LocalStep(tree, a, pred, id, regs);
        LessWork(work, p, id, SplittingLeft(regs[id]));
        work := work[id := SplittingLeft(regs[id])];
      } else {
        SumNatural(work, 0, p);
        Leaves(todo, j, p);
        todo := Without(todo, j);
      }
      step := step + 1;
    }
    AllLocal(pred, a[..], p, f, tree.height, tree.sizeL[..], regs[..]);
  }

  lemma WorkAtStart(p: int, n: int, work: seq<int>)
    requires 0 < p == |work| && 0 <= n && forall id :: 0 <= id < p ==> work[id] == Share(p, n, id) + 1
    ensures Natural(work)
  {
    forall id | 0 <= id < p
      ensures 0 <= work[id]
    {
      ShareNatural(p, n, id);
    }
  }

  /** Thread id's two counts, of which the first `stage` are written. */
  ghost predicate MisAt(p: int, f: int, total: int, sz: seq<int>, ml: seq<int>, mr: seq<int>, id: int, stage: int) {
    && 0 <= id < p && 0 <= f && f + id < |sz| == |ml| == |mr| && 0 <= stage <= 2
    && (1 <= stage ==> ml[f + id] == Excess(sz[f + id], Share(p, total, id)))
    && (2 <= stage ==> mr[f + id] == Excess(Share(p, total, id), sz[f + id]))
  }

  ghost predicate MisState(p: int, f: int, total: int, sz: seq<int>, ml: seq<int>, mr: seq<int>, stage: seq<int>) {
    && 0 < p == |stage| && 0 <= f && f + p <= |sz| == |ml| == |mr|
    && (forall id :: 0 <= id < p ==> MisAt(p, f, total, sz, ml, mr, id, stage[id]))
    && (forall k :: 0 <= k < f || f + p <= k < |sz| ==> ml[k] == 0 && mr[k] == 0)
  }

  lemma MisStart(p: int, f: int, total: int, sz: seq<int>, ml: seq<int>, mr: seq<int>, stage: seq<int>)
    requires 0 < p == |stage| && 0 <= f && f + p <= |sz| == |ml| == |mr|
    requires forall id :: 0 <= id < p ==> stage[id] == 0
    requires forall k :: 0 <= k < |ml| ==> ml[k] == 0 && mr[k] == 0
    ensures MisState(p, f, total, sz, ml, mr, stage)
  {
  }

  lemma MisStages(p: int, f: int, total: int, sz: seq<int>, ml: seq<int>, mr: seq<int>, stage: seq<int>)
    requires MisState(p, f, total, sz, ml, mr, stage)
    ensures |stage| == p && forall id :: 0 <= id < p ==> 0 <= stage[id] <= 2
  {
    forall id | 0 <= id < p
      ensures 0 <= stage[id] <= 2
    {
      assert MisAt(p, f, total, sz, ml, mr, id, stage[id]);
    }
  }

  lemma MisOver(p: int, f: int, total: int, sz: seq<int>, ml: seq<int>, mr: seq<int>, stage: seq<int>)
    requires MisState(p, f, total, sz, ml, mr, stage) && forall id :: 0 <= id < p ==> stage[id] == 2
    ensures forall k :: f <= k < f + p ==>
              && ml[k] == Excess(sz[k], Share(p, total, k - f)) && mr[k] == Excess(Share(p, total, k - f), sz[k])
    ensures forall k :: 0 <= k < f || f + p <= k < |sz| ==> ml[k] == 0 && mr[k] == 0
  {
    hide Excess, Share;
    forall k | f <= k < f + p
      ensures ml[k] == Excess(sz[k], Share(p, total, k - f)) && mr[k] == Excess(Share(p, total, k - f), sz[k])
    {
      assert MisAt(p, f, total, sz, ml, mr, k - f, stage[k - f]);
    }
  }

  /** Phase two: every thread compares its local size with its share of the total and writes its two
      counts, interleaved in any way. */
  method MisplacedPhase(tree: Tree, total: int, pick: int -> nat)
    requires tree.Valid()
    requires forall k :: 0 <= k < tree.misL.Length ==> tree.misL[k] == 0 && tree.misR[k] == 0
    modifies tree.misL, tree.misR
    ensures forall k :: tree.BeginLeaves() <= k < tree.BeginLeaves() + tree.nLeaves ==>
              && tree.misL[k] == Excess(tree.sizeL[k], Share(tree.nLeaves, total, k - tree.BeginLeaves()))
              && tree.misR[k] == Excess(Share(tree.nLeaves, total, k - tree.BeginLeaves()), tree.sizeL[k])
    ensures forall k :: 0 <= k < tree.BeginLeaves() || tree.BeginLeaves() + tree.nLeaves <= k < tree.sizeL.Length ==>
              tree.misL[k] == 0 && tree.misR[k] == 0
  {
    hide Sum, MisState, Excess, Share, Unfinished, Without;
    var p, f := tree.nLeaves, tree.BeginLeaves();
    var stage := new int[p](_ => 0);
    MisStart(p, f, total, tree.sizeL[..], tree.misL[..], tree.misR[..], stage[..]);
    var todo, step := All(p), 0;
    ghost var work := seq(p, _ => 2);
    while todo != []
      invariant Unfinished(todo, p)
      invariant MisState(p, f, total, tree.sizeL[..], tree.misL[..], tree.misR[..], stage[..])
      invariant |work| == p && Natural(work) && forall id :: 0 <= id < p ==> work[id] == 2 - stage[id]
      invariant forall id :: 0 <= id < p && id !in todo ==> stage[id] == 2
      decreases Sum(work, 0, p) + |todo|
    {
      var j := Chosen(pick, step, todo);
      Picked(todo, j, p);
      var id := todo[j];
      if stage[id] < 2 {
        LessWork(work, p, id, work[id] - 1);
        work := work[id := work[id] - 1];
        WriteCount(tree, total, id, stage, p, f);
      } else {
        SumNatural(work, 0, p);
        Leaves(todo, j, p);
        todo := Without(todo, j);
      }
      step := step + 1;
    }
    MisOver(p, f, total, tree.sizeL[..], tree.misL[..], tree.misR[..], stage[..]);
  }

  /** A thread's next write. */
  method WriteCount(tree: Tree, total: int, id: int, stage: array<int>, p: int, f: int)
    requires tree.Valid() && p == tree.nLeaves && f == tree.BeginLeaves() && 0 <= id < p == stage.Length && stage[id] < 2
    requires stage != tree.sizeL && stage != tree.misL && stage != tree.misR
    requires MisState(p, f, total, tree.sizeL[..], tree.misL[..], tree.misR[..], stage[..])
    modifies tree.misL, tree.misR, stage
    ensures stage[..] == old(stage[..])[id := old(stage[id]) + 1]
    ensures MisState(p, f, total, tree.sizeL[..], tree.misL[..], tree.misR[..], stage[..])
  {
    hide MisState, Excess;
    ghost var ml, mr, st := tree.misL[..], tree.misR[..], stage[..];
    var thisLeft := total / p;
    if id < total % p { thisLeft := thisLeft + 1; }
    assert thisLeft == Share(p, total, id);
    MisStages(p, f, total, tree.sizeL[..], ml, mr, st);
    var size := tree.sizeL[f + id];
    MisNext(p, f, total, tree.sizeL[..], ml, mr, st, id);
    ExcessIs(size, thisLeft);
    if stage[id] == 0 {
      tree.misL[f + id] := if size >= thisLeft then size - thisLeft else 0;
    } else {
      tree.misR[f + id] := if size >= thisLeft then 0 else thisLeft - size;
    }
    stage[id] := stage[id] + 1;
  }

  lemma ExcessIs(x: int, y: int)
    ensures Excess(x, y) == (if x >= y then x - y else 0) && Excess(y, x) == (if x >= y then 0 else y - x)
  {
  }

  lemma MisNext(p: int, f: int, total: int, sz: seq<int>, ml: seq<int>, mr: seq<int>, stage: seq<int>, id: int)
    requires MisState(p, f, total, sz, ml, mr, stage) && 0 <= id < p
    ensures f + id < |ml| == |mr| == |sz| && 0 <= f && |stage| == p
    ensures stage[id] == 0 ==>
              MisState(p, f, total, sz, ml[f + id := Excess(sz[f + id], Share(p, total, id))], mr, stage[id := 1])
    ensures stage[id] == 1 ==>
              MisState(p, f, total, sz, ml, mr[f + id := Excess(Share(p, total, id), sz[f + id])], stage[id := 2])
  {
    hide Excess, Share;
    if stage[id] == 0 {
      var ml', st' := ml[f + id := Excess(sz[f + id], Share(p, total, id))], stage[id := 1];
      forall k | 0 <= k < p
        ensures MisAt(p, f, total, sz, ml', mr, k, st'[k])
      {
        assert MisAt(p, f, total, sz, ml, mr, k, stage[k]);
      }
    } else if stage[id] == 1 {
      var mr', st' := mr[f + id := Excess(Share(p, total, id), sz[f + id])], stage[id := 2];
      forall k | 0 <= k < p
        ensures MisAt(p, f, total, sz, ml, mr', k, st'[k])
      {
        assert MisAt(p, f, total, sz, ml, mr, k, stage[k]);
      }
    }
  }

  /** The first misplaced element on the right and the last one on the left. */
  method EndItems(tree: Tree) returns (firstEl: Element, lastEl: Element)
    requires tree.Valid() && Summed(tree.misL[..], tree.height) && Summed(tree.misR[..], tree.height)
    requires 0 < tree.misL[0] == tree.misR[0]
    ensures firstEl == tree.RightItem(0) && lastEl == tree.LeftItem(tree.misL[0] - 1)
  {
    RootLeaves(tree.height);
    firstEl := tree.Ith(1, 0, tree.misR, tree.height);
    firstEl := firstEl.(i := firstEl.i + tree.sizeL[firstEl.iNode]);
    lastEl := tree.Ith(tree.misL[0], 0, tree.misL, tree.height);
    lastEl := lastEl.(i := lastEl.i + (tree.sizeL[lastEl.iNode] - tree.misL[lastEl.iNode]));
  }

  /** A thread's share of the pairs, found by walking the tree from both ends. */
  method CalculateElementsToSwap(tree: Tree, firstEl: Element, lastEl: Element, id: int)
    returns (count: int, first: Element, last: Element)
    requires tree.Valid() && Summed(tree.misL[..], tree.height) && Summed(tree.misR[..], tree.height)
    requires 0 < tree.misL[0] == tree.misR[0] && 0 <= id < tree.nLeaves
    requires firstEl == tree.RightItem(0) && lastEl == tree.LeftItem(tree.misL[0] - 1)
    ensures count == Share(tree.nLeaves, tree.misL[0], id)
    ensures count > 0 ==>
              var previous := ShareSum(tree.nLeaves, tree.misL[0], id);
              && 0 <= previous && previous + count <= tree.misL[0]
              && first == tree.RightItem(previous) && last == tree.LeftItem(tree.misL[0] - 1 - previous)
  {
    hide ShareSum, Tree.RightItem, Tree.LeftItem, Summed;
    var misplaced, numThreads := tree.misL[0], tree.nLeaves;
    ShareSpan(numThreads, misplaced, id);
    var basePart, extra := misplaced / numThreads, misplaced % numThreads;
    var add := if id < extra then 1 else 0;
    first, last := firstEl, lastEl;
    if basePart + add > 0 {
      var previous := basePart * id + (if id < extra then id else extra);
      last := tree.BackwardL(previous, lastEl, misplaced - 1);
      first := tree.AdvanceR(previous, firstEl, 0);
    }
    count := basePart + add;
  }

  /** Pairs exchanged so far: each thread has done the first ones of its share. */
  ghost predicate SharesDone(p: int, m: int, done: set<int>, progress: seq<int>) {
    && 0 < p == |progress|
    && (forall id, j :: 0 <= id < p && ShareSum(p, m, id) <= j < ShareSum(p, m, id) + Share(p, m, id) ==>
          (j in done <==> j < ShareSum(p, m, id) + progress[id]))
  }

  lemma ShareNext(p: int, m: int, id: nat)
    requires 0 < p
    ensures ShareSum(p, m, id + 1) == ShareSum(p, m, id) + Share(p, m, id)
  {
  }

  /** The next pair of one thread belongs to no other. */
  lemma SharesStep(p: int, m: int, done: set<int>, progress: seq<int>, id: int)
    requires 0 <= m && 0 <= id < p && SharesDone(p, m, done, progress) && 0 <= progress[id] < Share(p, m, id)
    ensures ShareSum(p, m, id) + progress[id] !in done
    ensures SharesDone(p, m, done + {ShareSum(p, m, id) + progress[id]}, progress[id := progress[id] + 1])
  {
    hide Share, ShareSum;
    var next := ShareSum(p, m, id) + progress[id];
    forall id', j | 0 <= id' < p && ShareSum(p, m, id') <= j < ShareSum(p, m, id') + Share(p, m, id')
      ensures j in done + {next} <==> j < ShareSum(p, m, id') + progress[id := progress[id] + 1][id']
    {
      ShareNext(p, m, id);
      ShareNext(p, m, id');
      if id' < id {
        ShareSumMonotone(p, m, id' + 1, id);
      } else if id < id' {
        ShareSumMonotone(p, m, id + 1, id');
      }
    }
  }

  lemma SharesAll(p: int, m: int, done: set<int>, progress: seq<int>)
    requires 0 <= m && SharesDone(p, m, done, progress) && forall id :: 0 <= id < p ==> progress[id] == Share(p, m, id)
    ensures forall j :: 0 <= j < m ==> j in done
  {
    SharesAddUp(p, m);
    forall j | 0 <= j < m
      ensures j in done
    {
      var id := ShareOwner(p, m, p, j);
    }
  }

  lemma SharesNone(p: int, m: int, progress: seq<int>)
    requires 0 < p == |progress| && forall id :: 0 <= id < p ==> progress[id] == 0
    ensures SharesDone(p, m, {}, progress)
  {
  }

  /** Phase three between two steps: every walker is where it should be and the pairs behind the
      walkers, and no others, are exchanged. */
  ghost predicate SwapState<T(!new)>(tree: Tree, walkers: seq<Walker>, s: seq<T>, t: seq<T>, rc: seq<int>, lc: seq<int>,
                                     done: set<int>, progress: seq<int>)
    reads tree.sizeL, tree.misL, tree.misR
  {
    && Ready(tree) && |walkers| == |progress| == tree.nLeaves && Exchanged(s, t, rc, lc, done)
    && rc == RightCells(tree.nLeaves, tree.height, tree.sizeL[..], tree.misR[..])
    && lc == LeftCells(tree.nLeaves, tree.height, tree.sizeL[..], tree.misL[..])
    && SharesDone(tree.nLeaves, tree.misL[0], done, progress)
    && (forall id :: 0 <= id < tree.nLeaves ==>
          WalkerOk(tree, walkers[id], id) && progress[id] == Progress(walkers[id], Count(tree, id)))
  }

  /** One step of one thread: it starts, begins a run, exchanges a pair or ends a run. */
  method SwapStep<T(!new)>(tree: Tree, a: array<T>, firstEl: Element, lastEl: Element, id: int, walkers: array<Walker>,
                           ghost rc: seq<int>, ghost lc: seq<int>, ghost s: seq<T>, ghost done0: set<int>, ghost progress0: seq<int>)
    returns (ghost done: set<int>, ghost progress: seq<int>)
    requires Apart(a, tree) && SwapState(tree, walkers[..], s, a[..], rc, lc, done0, progress0)
    requires (walkers as object) != a && (walkers as object) != tree.sizeL && (walkers as object) != tree.misL && (walkers as object) != tree.misR
    requires firstEl == tree.RightItem(0) && lastEl == tree.LeftItem(tree.misL[0] - 1)
    requires 0 <= id < tree.nLeaves && !Finished(walkers[id])
    modifies a, walkers
    ensures SwapState(tree, walkers[..], s, a[..], rc, lc, done, progress)
    ensures walkers[..] == old(walkers[..])[id := walkers[id]]
    ensures 0 <= WorkLeft(walkers[id], Count(tree, id)) < old(WorkLeft(walkers[id], Count(tree, id)))
  {
    hide Exchanged, Ready, SharesDone, RightCells, LeftCells, WalkerOk, Share, ShareSum, Tree.RightItem, Tree.LeftItem;
    done, progress := done0, progress0;
    var w := walkers[id];
    if w.started {
      WalkerParts(tree, w, id);
    }
    if !w.started {
      walkers[id] := StartWalk(tree, firstEl, lastEl, id, w);
    } else if w.loop == 0 {
      walkers[id] := BeginRun(tree, id, w);
    } else if w.i < w.loop {
      SharesStep(tree.nLeaves, tree.misL[0], done, progress, id);
      walkers[id] := ExchangePair(tree, a, id, w, rc, lc, s, done);
      done, progress := done + {Begin(tree, id) + progress[id]}, progress[id := progress[id] + 1];
    } else {
      walkers[id] := EndRun(tree, id, w);
    }
  }

  lemma SwapWorkAtStart(p: int, m: int, work: seq<int>)
    requires 0 < p == |work| && 0 <= m && forall id :: 0 <= id < p ==> work[id] == 3 * Share(p, m, id) + 1
    ensures Natural(work)
  {
    forall id | 0 <= id < p
      ensures 0 <= work[id]
    {
      ShareNatural(p, m, id);
    }
  }

  /** Phase three: every thread exchanges its share of the pairs, pair by pair and interleaved in any
      way. */
  method SwapPhase<T(!new)>(tree: Tree, a: array<T>, pick: int -> nat, ghost rc: seq<int>, ghost lc: seq<int>)
    returns (ghost done: set<int>)
    requires Apart(a, tree) && Ready(tree)
    requires rc == RightCells(tree.nLeaves, tree.height, tree.sizeL[..], tree.misR[..])
    requires lc == LeftCells(tree.nLeaves, tree.height, tree.sizeL[..], tree.misL[..])
    requires Exchanged(a[..], a[..], rc, lc, {})
    modifies a
    ensures Exchanged(old(a[..]), a[..], rc, lc, done)
    ensures forall j :: 0 <= j < tree.misL[0] ==> j in done
  {
    hide Exchanged, Summed, Tree.RightItem, Tree.LeftItem, SharesDone, RightCells, LeftCells, Share, ShareSum, Sum, Unfinished, Without;
    var p, m := tree.nLeaves, tree.misL[0];
    ghost var s := a[..];
    var firstEl, lastEl := EndItems(tree);
    var walkers := new Walker[p](_ => Walker(false, firstEl, lastEl, 0, 0, 0, 0, 0));
    ghost var progress := seq(p, _ => 0);
    done := {};
    SharesNone(p, m, progress);
    var todo, step := All(p), 0;
    ghost var work := seq(p, id requires 0 <= id < p => 3 * Share(p, m, id) + 1);
    SwapWorkAtStart(p, m, work);
    while todo != []
      invariant Unfinished(todo, p) && SwapState(tree, walkers[..], s, a[..], rc, lc, done, progress)
      invariant |work| == p && Natural(work) && forall id :: 0 <= id < p ==> work[id] == WorkLeft(walkers[id], Count(tree, id))
      invariant forall id :: 0 <= id < p && id !in todo ==> Finished(walkers[id])
      decreases Sum(work, 0, p) + |todo|
    {
      var j := Chosen(pick, step, todo);
      Picked(todo, j, p);
      var id := todo[j];
      if !Finished(walkers[id]) {
        done, progress := SwapStep(tree, a, firstEl, lastEl, id, walkers, rc, lc, s, done, progress);
        LessWork(work, p, id, WorkLeft(walkers[id], Count(tree, id)));
        work := work[id := WorkLeft(walkers[id], Count(tree, id))];
      } else {
        SumNatural(work, 0, p);
        Leaves(todo, j, p);
        todo := Without(todo, j);
      }
      step := step + 1;
    }
    SharesAll(p, m, done, progress);
  }

  lemma {:induction false} SizesBelow(p: int, n: int, f: int, sz: seq<int>, k: int)
    requires 0 < p && 0 <= n && 0 <= f <= k <= |sz| && f + p <= |sz|
    requires forall i :: 0 <= i < p ==> SizeFits(p, n, f, sz, i)
    requires forall i :: f + p <= i < |sz| ==> sz[i] == 0
    ensures 0 <= Sum(sz, f, k) <= ShareSum(p, n, if k - f < p then k - f else p)
    decreases k
  {
    if f < k {
      SizesBelow(p, n, f, sz, k - 1);
      if k - 1 - f < p {
        assert SizeFits(p, n, f, sz, k - 1 - f);
      }
    }
  }

  /** The cut is a position of the array. */
  lemma CutInside(p: int, n: int, f: int, top: nat, sz: seq<int>)
    requires f == Pow2(top) - 1 && 0 < p <= Pow2(top) && 0 <= n && Summed(sz, top)
    requires forall i :: 0 <= i < p ==> SizeFits(p, n, f, sz, i)
    requires forall i :: Pow2(top) - 1 + p <= i < |sz| ==> sz[i] == 0
    ensures 0 <= sz[0] <= n
  {
    Total(sz, top);
    SizesBelow(p, n, f, sz, |sz|);
    SharesAddUp(p, n);
  }

  /** What the leaves say does not change when the inner nodes are summed. */
  lemma SameLeaves<T(!new)>(pred: T -> bool, s: seq<T>, p: int, top: nat, sz: seq<int>, sz': seq<int>)
    requires LocallySplit(pred, s, p, top, sz) && |sz| == |sz'|
    requires forall k :: Pow2(top) - 1 <= k < |sz| ==> sz'[k] == sz[k]
    ensures LocallySplit(pred, s, p, top, sz')
  {
    hide Row, Col;
  }

  /** The local phase and the reduction of the sizes. */
  method CountLeft<T(!new)>(tree: Tree, a: array<T>, pred: T -> bool, d: Scheduler)
    requires Apart(a, tree) && tree.Valid()
    requires forall k :: 0 <= k < tree.sizeL.Length ==> tree.sizeL[k] == 0
    modifies a, tree.sizeL
    ensures multiset(a[..]) == multiset(old(a[..]))
    ensures LocallySplit(pred, a[..], tree.nLeaves, tree.height, tree.sizeL[..])
    ensures Summed(tree.sizeL[..], tree.height) && 0 <= tree.sizeL[0] <= a.Length
    ensures forall k :: 0 <= k < tree.nLeaves ==> SizeFits(tree.nLeaves, |a[..]|, tree.BeginLeaves(), tree.sizeL[..], k)
    ensures forall k :: tree.BeginLeaves() + tree.nLeaves <= k < tree.sizeL.Length ==> tree.sizeL[k] == 0
  {
    hide LocallySplit, Summed;
    var p := tree.nLeaves;
    ghost var f, top := tree.BeginLeaves(), tree.height;
    LocalPhase(tree, a, pred, d.local);
    ghost var leaves := tree.sizeL[..];
    forall k | 0 <= k < |leaves|
      ensures leaves[k] >= 0
    {
      assert f <= k < f + p ==> SizeFits(p, |a[..]|, f, leaves, k - f);
    }
    tree.Reduce(tree.sizeL, d.sizes);
    SameLeaves(pred, a[..], p, top, leaves, tree.sizeL[..]);
    forall i | 0 <= i < p
      ensures SizeFits(p, |a[..]|, f, tree.sizeL[..], i)
    {
      assert SizeFits(p, |a[..]|, f, leaves, i);
    }
    CutInside(p, |a[..]|, f, top, tree.sizeL[..]);
  }

  lemma CountsMade<T(!new)>(pred: T -> bool, s: seq<T>, p: int, f: int, top: nat, sz: seq<int>, ml: seq<int>, mr: seq<int>, total: int)
    requires 0 < p <= Pow2(top) && f == Pow2(top) - 1 && Summed(sz, top) && Summed(ml, top) && Summed(mr, top)
    requires |sz| == |ml| == |mr| == 2 * Pow2(top) - 1 && sz[0] == total && 0 <= total <= |s|
    requires forall k :: 0 <= k < p ==> SizeFits(p, |s|, f, sz, k)
    requires forall k :: f <= k < f + p ==> ml[k] == Excess(sz[k], Share(p, total, k - f)) && mr[k] == Excess(Share(p, total, k - f), sz[k])
    requires forall k :: f + p <= k < |sz| ==> sz[k] == 0 && ml[k] == 0 && mr[k] == 0
    ensures Counted(p, |s|, top, sz, ml, mr, total)
  {
    hide Summed, Share, Excess, Pow2;
    forall k | f <= k < f + p
      ensures sz[k] <= Share(p, |s|, k - f)
    {
      assert SizeFits(p, |s|, f, sz, k - f);
    }
  }

  /** Phases one and two with their reductions leave the counts of the locally split contents. */
  method CountPhases<T(!new)>(tree: Tree, a: array<T>, pred: T -> bool, d: Scheduler)
    requires Apart(a, tree) && tree.Valid()
    requires forall k :: 0 <= k < tree.sizeL.Length ==> tree.sizeL[k] == 0 && tree.misL[k] == 0 && tree.misR[k] == 0
    modifies a, tree.sizeL, tree.misL, tree.misR
    ensures multiset(a[..]) == multiset(old(a[..]))
    ensures Holds(tree, pred, a[..], tree.sizeL[0])
  {
    hide LocallySplit, Summed, Share, Excess, SizeFits, Counted;
    var p := tree.nLeaves;
    ghost var f := tree.BeginLeaves();
    CountLeft(tree, a, pred, d);
    ghost var sz := tree.sizeL[..];
    MisplacedPhase(tree, tree.sizeL[0], d.misplaced);
    tree.ReduceMis(d.counts);
    CountsMade(pred, a[..], p, f, tree.height, sz, tree.misL[..], tree.misR[..], sz[0]);
  }

  /** The whole partition: however the threads interleave between barriers, the elements that satisfy
      the predicate come first, and the cut is the sum of the local left sizes. */
  method ParallelPartition<T(!new)>(a: array<T>, pred: T -> bool, numThreads: nat, d: Scheduler)
    returns (cut: int)
    requires numThreads > 0
    modifies a
    ensures multiset(a[..]) == multiset(old(a[..]))
    ensures 0 <= cut <= a.Length
    ensures forall x :: 0 <= x < a.Length ==> (pred(a[x]) <==> x < cut)
  {
    hide LocallySplit, Pairs, Summed;
    var tree := new Tree(numThreads);
    CountPhases(tree, a, pred, d);
    ghost var s := a[..];
    cut := tree.sizeL[0];
    ghost var p, top, sz, ml, mr := tree.nLeaves, tree.height, tree.sizeL[..], tree.misL[..], tree.misR[..];
    Balanced(p, |s|, top, sz, ml, mr, cut);
    CellsApart(pred, s, p, top, sz, ml, mr, cut);
    ghost var rc, lc, done := RightCells(p, top, sz, mr), LeftCells(p, top, sz, ml), {};
    if tree.misL[0] > 0 {
      done := SwapPhase(tree, a, d.swaps, rc, lc);
    }
    OnePartition(pred, s, a[..], p, top, sz, ml, mr, cut, done);
  }
}
