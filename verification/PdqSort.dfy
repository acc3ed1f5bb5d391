/** The main loop of pdqsort.h: it sorts, and no path through its partitions is long. */
module PdqSort {
  import opened Orders
  import opened PdqPartition
  import opened PdqBranchless
  import opened PdqSteps
  import opened SumTree

  // ----- how long a path of partitions can be -----

  /** The most that a partition which is not highly unbalanced leaves on one side. */
  function Shrunk(n: int): int {
    n - 1 - n / 8
  }

  /** How often a range can be cut by such partitions before insertion sort takes it. */
  function Levels(n: int): nat
    decreases n
  {
    if n < INSERTION_SORT_THRESHOLD then 0 else 1 + Levels(Shrunk(n))
  }

  function Log2(n: int): nat
    decreases n
  {
    if n <= 1 then 0 else 1 + Log2(n / 2)
  }

  /** Log2 rounds down. */
  lemma {:induction false} Log2Is(n: int)
    requires n >= 1
    ensures Pow2(Log2(n)) <= n < 2 * Pow2(Log2(n))
    decreases n
  {
    if n > 1 {
      Log2Is(n / 2);
    }
  }

  lemma {:induction false} LevelsMonotone(n: int, m: int)
    requires n <= m
    ensures Levels(n) <= Levels(m)
    decreases m
  {
    if INSERTION_SORT_THRESHOLD <= n {
      LevelsMonotone(Shrunk(n), Shrunk(m));
    }
  }

  /** Six balanced cuts halve a range. */
  lemma {:induction false} LevelsLogarithmic(n: int)
    requires n >= 1
    ensures Levels(n) <= 6 * Log2(n)
    decreases n
  {
    if INSERTION_SORT_THRESHOLD <= n {
      var a := Shrunk(n);
      var b := Shrunk(a);
      var c := Shrunk(b);
      var d := Shrunk(c);
      var e := Shrunk(d);
      var f := Shrunk(e);
      assert 8 * a <= 7 * n && 8 * b <= 7 * a && 8 * c <= 7 * b && 8 * d <= 7 * c && 8 * e <= 7 * d && 8 * f <= 7 * e;
      assert Levels(n) <= 6 + Levels(f) by {
        LevelsStep(n);
        LevelsStep(a);
        LevelsStep(b);
        LevelsStep(c);
        LevelsStep(d);
        LevelsStep(e);
      }
      LevelsMonotone(f, n / 2);
      LevelsLogarithmic(n / 2);
    }
  }

  lemma LevelsStep(n: int)
    ensures Levels(n) <= 1 + Levels(Shrunk(n))
  {
  }

  // ----- the cuts of a run -----

  /** How a range comes to be sorted: directly, or cut at a pivot that stays at pos. An equal cut is a
      left partition, whose left side needs no sorting. */
  datatype Cuts = Direct | Cut(pos: int, equal: bool, left: Cuts, right: Cuts)

  predicate Unbalanced(b: int, pos: int, end: int) {
    pos - b < (end - b) / 8 || end - (pos + 1) < (end - b) / 8
  }

  predicate StartsEqual(c: Cuts) {
    c.Cut? && c.equal
  }

  /** The cuts lie inside their ranges, which are large enough to be cut, and no equal cut follows
      right behind another. */
  ghost predicate CutsOf(c: Cuts, b: int, end: int)
    decreases c
  {
    c.Cut? ==>
      && INSERTION_SORT_THRESHOLD <= end - b && b <= c.pos < end
      && (c.equal ==> c.left.Direct? && !StartsEqual(c.right))
      && CutsOf(c.left, b, c.pos) && CutsOf(c.right, c.pos + 1, end)
  }

  function Max(x: nat, y: nat): nat {
    if x < y then y else x
  }

  /** The most cuts on a path from the whole range down to one that is sorted directly. */
  ghost function Depth(c: Cuts): nat
    decreases c
  {
    if c.Direct? then 0 else 1 + Max(Depth(c.left), Depth(c.right))
  }

  /** The most highly unbalanced cuts on such a path. */
  ghost function Bad(c: Cuts, b: int, end: int): nat
    decreases c
  {
    if c.Direct? then 0
    else (if !c.equal && Unbalanced(b, c.pos, end) then 1 else 0) + Max(Bad(c.left, b, c.pos), Bad(c.right, c.pos + 1, end))
  }

  /** A way down the tree: to the left part of a cut or to the right one. */
  ghost predicate Leads(path: seq<bool>, c: Cuts)
    decreases path
  {
    path == [] || (c.Cut? && Leads(path[1..], if path[0] then c.left else c.right))
  }

  /** The highly unbalanced cuts along it. */
  ghost function BadOn(path: seq<bool>, c: Cuts, b: int, end: int): nat
    requires Leads(path, c)
    decreases path
  {
    if path == [] then 0
    else (if !c.equal && Unbalanced(b, c.pos, end) then 1 else 0)
         + (if path[0] then BadOn(path[1..], c.left, b, c.pos) else BadOn(path[1..], c.right, c.pos + 1, end))
  }

  /** No way down is longer than Depth or meets more highly unbalanced cuts than Bad. */
  lemma {:induction false} AlongPath(path: seq<bool>, c: Cuts, b: int, end: int)
    requires Leads(path, c)
    ensures |path| <= Depth(c) && BadOn(path, c, b, end) <= Bad(c, b, end)
    decreases path
  {
    if path != [] {
      if path[0] {
        AlongPath(path[1..], c.left, b, c.pos);
      } else {
        AlongPath(path[1..], c.right, c.pos + 1, end);
      }
    }
  }

  /** Both sides of a balanced cut have a level less than the range. */
  lemma SideLevels(b: int, pos: int, end: int)
    requires INSERTION_SORT_THRESHOLD <= end - b && b <= pos < end
    ensures var used := if Unbalanced(b, pos, end) then 0 else 1;
            used + Levels(pos - b) <= Levels(end - b) && used + Levels(end - (pos + 1)) <= Levels(end - b)
  {
    var n := if Unbalanced(b, pos, end) then end - b else Shrunk(end - b);
    LevelsMonotone(pos - b, n);
    LevelsMonotone(end - (pos + 1), n);
  }

  lemma CutsParts(c: Cuts, b: int, end: int)
    requires CutsOf(c, b, end) && c.Cut?
    ensures INSERTION_SORT_THRESHOLD <= end - b && b <= c.pos < end
    ensures CutsOf(c.left, b, c.pos) && CutsOf(c.right, c.pos + 1, end)
    ensures c.equal ==> Depth(c.left) == 0 && !StartsEqual(c.right)
  {
  }

  lemma DepthStep(c: Cuts, x: nat)
    requires c.Cut? && Depth(c.left) <= x && Depth(c.right) <= x
    ensures Depth(c) <= 1 + x
  {
  }

  lemma BadStep(c: Cuts, b: int, end: int)
    requires c.Cut?
    ensures var used := if !c.equal && Unbalanced(b, c.pos, end) then 1 else 0;
            used + Bad(c.left, b, c.pos) <= Bad(c, b, end) && used + Bad(c.right, c.pos + 1, end) <= Bad(c, b, end)
  {
  }

  /** A balanced cut uses up a level and any other right cut counts as bad; each of them may have one
      equal cut before it. */
  lemma {:induction false} DepthBounded(c: Cuts, b: int, end: int)
    requires CutsOf(c, b, end)
    ensures Depth(c) <= 2 * (Levels(end - b) + Bad(c, b, end)) + (if StartsEqual(c) then 1 else 0)
    decreases c
  {
    hide Levels, Unbalanced, CutsOf, Depth, Bad;
    if c.Cut? {
      CutsParts(c, b, end);
      SideLevels(b, c.pos, end);
      BadStep(c, b, end);
      DepthBounded(c.left, b, c.pos);
      DepthBounded(c.right, c.pos + 1, end);
      var x := 2 * (Levels(end - b) + Bad(c, b, end));
      DepthStep(c, if c.equal then x else x - 1);
    } else {
      NothingDeep(c);
    }
  }

  lemma NothingDeep(c: Cuts)
    requires c.Direct?
    ensures Depth(c) == 0
  {
  }

  /** Cuts already made from left to right, still without what follows the last of them. */
  datatype Made = Made(pos: int, equal: bool, left: Cuts)

  ghost function Whole(made: seq<Made>, last: Cuts): Cuts {
    if made == [] then last
    else Cut(made[0].pos, made[0].equal, made[0].left, Whole(made[1..], last))
  }

  lemma {:induction false} WholeAppend(made: seq<Made>, m: Made, last: Cuts)
    ensures Whole(made + [m], last) == Whole(made, Cut(m.pos, m.equal, m.left, last))
    decreases made
  {
    if made == [] {
      assert [m][1..] == [];
    } else {
      assert (made + [m])[1..] == made[1..] + [m];
      WholeAppend(made[1..], m, last);
    }
  }

  /** What may follow: cuts of b..end-1, not equal again right after an equal one, and with no more
      bad ones on a path than are still allowed. */
  ghost predicate MayFollow(last: Cuts, b: int, end: int, bounded: bool, bad: int, above: bool) {
    CutsOf(last, b, end) && (above ==> !StartsEqual(last)) && (bounded ==> Bad(last, b, end) <= bad)
  }

  /** With anything that may follow the cuts made so far are proper cuts of the whole range. */
  ghost predicate Extends(made: seq<Made>, begin: int, b: int, end: int, bounded: bool, allowed: int, bad: int, above: bool) {
    forall last :: MayFollow(last, b, end, bounded, bad, above) ==>
      MayFollow(Whole(made, last), begin, end, bounded, allowed, false)
  }

  lemma ExtendsStep(made: seq<Made>, m: Made, begin: int, b: int, end: int, bounded: bool, allowed: int, bad: int, bad': int, above: bool)
    requires Extends(made, begin, b, end, bounded, allowed, bad, above)
    requires INSERTION_SORT_THRESHOLD <= end - b && b <= m.pos < end && CutsOf(m.left, b, m.pos)
    requires m.equal ==> !above && m.left.Direct? && bad' == bad
    requires bounded ==> Bad(m.left, b, m.pos) <= bad'
    requires !m.equal ==> if Unbalanced(b, m.pos, end) then bad' == bad - 1 else bad' == bad
    ensures Extends(made + [m], begin, m.pos + 1, end, bounded, allowed, bad', m.equal)
  {
    forall last | MayFollow(last, m.pos + 1, end, bounded, bad', m.equal)
      ensures MayFollow(Whole(made + [m], last), begin, end, bounded, allowed, false)
    {
      WholeAppend(made, m, last);
      assert MayFollow(Cut(m.pos, m.equal, m.left, last), b, end, bounded, bad, above);
    }
  }

  // ----- the sorted frontier -----

  /** Cells begin..b-1 are final: in order and no greater than what follows; unless the range is
      leftmost the cell before b bounds the rest from below. */
  ghost predicate Frontier<T(!new)>(lt: (T, T) -> bool, s: seq<T>, begin: int, b: int, end: int, leftmost: bool) {
    && 0 <= begin <= b <= end <= |s|
    && Sorted(lt, s, begin, b)
    && (forall i, k :: begin <= i < b <= k < end ==> !lt(s[k], s[i]))
    && (!leftmost ==> 0 < b && NoneLess(lt, s, b, end, s[b - 1]))
  }

  /** pos splits b..end-1: nothing before it is greater and nothing after it less. */
  ghost predicate SplitAt<T(!new)>(lt: (T, T) -> bool, s: seq<T>, b: int, pos: int, end: int) {
    && 0 <= b <= pos < end <= |s|
    && NoneMore(lt, s, b, pos, s[pos]) && NoneLess(lt, s, pos + 1, end, s[pos])
  }

  lemma FrontierKept<T(!new)>(lt: (T, T) -> bool, s: seq<T>, t: seq<T>, begin: int, b: int, end: int, leftmost: bool)
    requires Frontier(lt, s, begin, b, end, leftmost) && Permuted(s, t, b, end)
    ensures Frontier(lt, t, begin, b, end, leftmost)
  {
    forall i, k | begin <= i < b <= k < end
      ensures !lt(t[k], t[i])
    {
      var m := PermutedFrom(s, t, b, end, k);
    }
    if !leftmost {
      NoneLessKept(lt, s, t, b, end, s[b - 1]);
    }
  }

  lemma FrontierStart<T(!new)>(lt: (T, T) -> bool, s: seq<T>, begin: int, end: int, leftmost: bool)
    requires 0 <= begin <= end <= |s|
    requires !leftmost ==> 0 < begin && NoneLess(lt, s, begin, end, s[begin - 1])
    ensures Permuted(s, s, begin, end) && Frontier(lt, s, begin, begin, end, leftmost)
  {
  }

  lemma FrontierPart<T(!new)>(lt: (T, T) -> bool, s: seq<T>, begin: int, b: int, pos: int, end: int, leftmost: bool)
    requires Frontier(lt, s, begin, b, end, leftmost) && b <= pos <= end
    ensures !leftmost ==> 0 < b && NoneLess(lt, s, b, pos, s[b - 1])
  {
  }

  lemma PermutedInside<T(!new)>(s: seq<T>, t: seq<T>, u: seq<T>, begin: int, b: int, pos: int, end: int)
    requires Permuted(s, t, begin, end) && Permuted(t, u, b, pos) && begin <= b && pos <= end
    ensures Permuted(s, u, begin, end) && Permuted(t, u, b, end)
  {
  }

  lemma FrontierDone<T(!new)>(lt: (T, T) -> bool, s: seq<T>, begin: int, b: int, end: int, leftmost: bool)
    requires Frontier(lt, s, begin, b, end, leftmost) && Sorted(lt, s, b, end)
    ensures Sorted(lt, s, begin, end)
  {
  }

  /** Once the left side is sorted the frontier moves behind the pivot. */
  lemma FrontierAdvance<T(!new)>(lt: (T, T) -> bool, s: seq<T>, begin: int, b: int, pos: int, end: int, leftmost: bool)
    requires StrictWeak(lt) && Frontier(lt, s, begin, b, end, leftmost)
    requires SplitAt(lt, s, b, pos, end) && Sorted(lt, s, b, pos)
    ensures Frontier(lt, s, begin, pos + 1, end, false)
  {
    forall i, k | begin <= i < pos + 1 <= k < end
      ensures !lt(s[k], s[i])
    {
      if b <= i < pos {
        NotLessTrans(lt, s[k], s[pos], s[i]);
      }
    }
  }

  lemma SplitKeptLeft<T(!new)>(lt: (T, T) -> bool, s: seq<T>, t: seq<T>, b: int, pos: int, end: int)
    requires SplitAt(lt, s, b, pos, end) && Permuted(s, t, b, pos)
    ensures SplitAt(lt, t, b, pos, end) && Permuted(s, t, b, end) && t[pos] == s[pos]
  {
    NoneMoreKept(lt, s, t, b, pos, s[pos]);
  }

  lemma SplitKeptRight<T(!new)>(lt: (T, T) -> bool, s: seq<T>, t: seq<T>, b: int, pos: int, end: int)
    requires SplitAt(lt, s, b, pos, end) && Permuted(s, t, pos + 1, end)
    ensures SplitAt(lt, t, b, pos, end) && Permuted(s, t, b, end) && t[pos] == s[pos]
  {
    NoneLessKept(lt, s, t, pos + 1, end, s[pos]);
  }

  /** A pivot no greater than the cell before the range is the least of the range, so what a left
      partition puts before it is all equal and needs no sorting. */
  lemma EqualRun<T(!new)>(lt: (T, T) -> bool, s: seq<T>, begin: int, b: int, pos: int, end: int)
    requires StrictWeak(lt) && Frontier(lt, s, begin, b, end, false)
    requires b <= pos < end && !lt(s[b - 1], s[pos]) && NoneMore(lt, s, b, pos, s[pos])
    requires AllMore(lt, s, pos + 1, end, s[pos])
    ensures SplitAt(lt, s, b, pos, end) && Sorted(lt, s, b, pos)
  {
    forall k | b <= k < pos
      ensures !lt(s[k], s[pos])
    {
      NotLessTrans(lt, s[k], s[b - 1], s[pos]);
    }
    forall i, k | b <= i < k < pos
      ensures !lt(s[k], s[i])
    {
      NotLessTrans(lt, s[k], s[pos], s[i]);
    }
    forall k | pos < k < end
      ensures !lt(s[k], s[pos])
    {
      Asymmetric(lt, s[k], s[pos]);
    }
  }

  // ----- one turn of the loop -----

  /** Stands for make_heap followed by sort_heap. */
  method HeapSort<T(!new)>(a: array<T>, begin: int, end: int, lt: (T, T) -> bool)
    requires StrictWeak(lt) && 0 <= begin <= end <= a.Length
    modifies a
    ensures Permuted(old(a[..]), a[..], begin, end) && Sorted(lt, a[..], begin, end)
  {
    InsertionSort(a, begin, end, lt);
  }

  method PartitionAround<T(!new)>(a: array<T>, begin: int, end: int, lt: (T, T) -> bool, branchless: bool,
                                  blockSize: int, ghost m: int)
    returns (pos: int, already: bool)
    requires StrictWeak(lt) && blockSize > 0
    requires 0 <= begin < m < end <= a.Length && !lt(a[m], a[begin])
    modifies a
    ensures Permuted(old(a[..]), a[..], begin, end) && SplitAt(lt, a[..], begin, pos, end)
    ensures a[pos] == old(a[begin])
  {
    if branchless {
      pos, already := PartitionRightBranchless(a, begin, end, lt, blockSize, m);
    } else {
      pos, already := PartitionRight(a, begin, end, lt, m);
    }
    RightSides(lt, old(a[..]), a[..], begin, end, pos, already);
  }

  lemma SplitInside<T(!new)>(lt: (T, T) -> bool, s: seq<T>, b: int, pos: int, end: int)
    requires SplitAt(lt, s, b, pos, end)
    ensures 0 <= b <= pos < end <= |s|
  {
  }

  method BreakPatterns<T(!new)>(a: array<T>, begin: int, pos: int, end: int, ghost lt: (T, T) -> bool)
    requires end <= a.Length && SplitAt(lt, a[..], begin, pos, end)
    modifies a
    ensures Permuted(old(a[..]), a[..], begin, end) && SplitAt(lt, a[..], begin, pos, end)
    ensures SidesShuffled(old(a[..]), a[..], begin, pos, end) && 0 <= pos < a.Length && a[pos] == old(a[pos])
  {
    hide Permuted, SplitAt, PdqSteps.Shuffled;
    ghost var s := a[..];
    SplitInside(lt, s, begin, pos, end);
    Shuffle(a, begin, pos);
    ghost var t := a[..];
    SplitKeptLeft(lt, s, t, begin, pos, end);
    Shuffle(a, pos + 1, end);
    SplitKeptRight(lt, t, a[..], begin, pos, end);
    PermutedTrans(s, t, a[..], begin, end);
  }

  /** Both sides of pos are shuffled, each inside its own cells. */
  ghost predicate SidesShuffled<T(!new)>(s: seq<T>, t: seq<T>, begin: int, pos: int, end: int) {
    0 <= begin <= pos < end <= |s| && t == PdqSteps.Shuffled(PdqSteps.Shuffled(s, begin, pos), pos + 1, end)
  }

  /** On either side at most 8 pairs that do not involve its last element are out of order. */
  ghost predicate NearlySorted<T(!new)>(lt: (T, T) -> bool, s: seq<T>, begin: int, pos: int, end: int)
    requires 0 <= begin <= pos < end <= |s|
  {
    && Inversions(lt, s, begin, pos - 1) <= PARTIAL_INSERTION_SORT_LIMIT
    && Inversions(lt, s, pos + 1, end - 1) <= PARTIAL_INSERTION_SORT_LIMIT
  }

  lemma RightInversions<T(!new)>(lt: (T, T) -> bool, s: seq<T>, t: seq<T>, begin: int, pos: int, end: int)
    requires 0 <= begin <= pos < end <= |s| && Permuted(s, t, begin, pos)
    ensures Inversions(lt, t, pos + 1, end - 1) == Inversions(lt, s, pos + 1, end - 1)
  {
    InversionsSame(lt, s, t, pos + 1, end - 1);
  }

  /** Tries insertion sort on both sides of a range that was already split. */
  method TryInsertion<T(!new)>(a: array<T>, begin: int, pos: int, end: int, lt: (T, T) -> bool) returns (done: bool)
    requires StrictWeak(lt) && end <= a.Length && SplitAt(lt, a[..], begin, pos, end)
    modifies a
    ensures Permuted(old(a[..]), a[..], begin, end) && SplitAt(lt, a[..], begin, pos, end)
    ensures done ==> Sorted(lt, a[..], begin, end)
    ensures done <==> NearlySorted(lt, old(a[..]), begin, pos, end)
    ensures a[pos] == old(a[pos])
  {
    hide Inversions;
    ghost var s := a[..];
    done := PartialInsertionSort(a, begin, pos, lt);
    ghost var t := a[..];
    SplitKeptLeft(lt, s, t, begin, pos, end);
    if done {
      RightInversions(lt, s, t, begin, pos, end);
      done := PartialInsertionSort(a, pos + 1, end, lt);
      SplitKeptRight(lt, t, a[..], begin, pos, end);
      PermutedTrans(s, t, a[..], begin, end);
      if done {
        SortedJoin(lt, a[..], begin, pos, end);
      }
    }
  }

  datatype Turn = Divided(pos: int, left: bool, badAllowed: int) | Finished

  /** What one turn leaves of b..end-1. */
  ghost predicate Turned<T(!new)>(lt: (T, T) -> bool, s: seq<T>, b: int, end: int, badAllowed: int, turn: Turn)
    requires 0 <= b <= end <= |s|
  {
    match turn
    case Finished => Sorted(lt, s, b, end)
    case Divided(pos, left, bad) =>
      && b <= pos < end && INSERTION_SORT_THRESHOLD <= end - b
      && (left ==> 0 < b && bad == badAllowed && !lt(s[b - 1], s[pos])
                   && NoneMore(lt, s, b, pos, s[pos]) && AllMore(lt, s, pos + 1, end, s[pos]))
      && (!left ==> SplitAt(lt, s, b, pos, end)
                    && if Unbalanced(b, pos, end) then bad == badAllowed - 1 && bad != 0 else bad == badAllowed)
  }

  /** After a left cut the frontier moves past the equal run and everything left is above it. */
  lemma LeftCut<T(!new)>(lt: (T, T) -> bool, s: seq<T>, begin: int, b: int, end: int, bad: int, turn: Turn)
    requires StrictWeak(lt) && Frontier(lt, s, begin, b, end, false)
    requires Turned(lt, s, b, end, bad, turn) && turn.Divided? && turn.left
    ensures Frontier(lt, s, begin, turn.pos + 1, end, false)
    ensures AllMore(lt, s, turn.pos + 1, end, s[turn.pos])
  {
    EqualRun(lt, s, begin, b, turn.pos, end);
    FrontierAdvance(lt, s, begin, b, turn.pos, end, false);
  }

  /** A left cut needs an element that is not above the cell before the range. */
  lemma NotTwice<T(!new)>(lt: (T, T) -> bool, s: seq<T>, b: int, end: int)
    requires 0 < b <= end <= |s| && exists k :: b <= k < end && !lt(s[b - 1], s[k])
    ensures !AllMore(lt, s, b, end, s[b - 1])
  {
  }

  /** After a right cut and the sorting of its left side the frontier moves past the pivot. */
  lemma RightCut<T(!new)>(lt: (T, T) -> bool, s: seq<T>, t: seq<T>, begin: int, b: int, end: int, leftmost: bool,
                          bad: int, turn: Turn)
    requires StrictWeak(lt) && Frontier(lt, s, begin, b, end, leftmost)
    requires Turned(lt, s, b, end, bad, turn) && turn.Divided? && !turn.left
    requires Permuted(s, t, b, turn.pos) && Sorted(lt, t, b, turn.pos)
    ensures Frontier(lt, t, begin, turn.pos + 1, end, false)
  {
    SplitKeptLeft(lt, s, t, b, turn.pos, end);
    FrontierKept(lt, s, t, begin, b, end, leftmost);
    FrontierAdvance(lt, t, begin, b, turn.pos, end, leftmost);
  }

  /** The cut, if any, that a turn makes before it sorts the whole range at once. */
  ghost predicate LastCuts(cuts: Cuts, b: int, end: int, badAllowed: int) {
    CutsOf(cuts, b, end) && !StartsEqual(cuts) && (badAllowed >= 0 ==> Bad(cuts, b, end) <= badAllowed)
  }

  /** One turn: a small range or a spent budget is sorted at once, otherwise the range is cut. */
  method TakeTurn<T(!new)>(a: array<T>, begin: int, end: int, lt: (T, T) -> bool, badAllowed: int, leftmost: bool,
                           branchless: bool, blockSize: int)
    returns (turn: Turn, ghost cuts: Cuts)
    requires StrictWeak(lt) && blockSize > 0 && 0 <= begin <= end <= a.Length
    requires !leftmost ==> 0 < begin && NoneLess(lt, a[..], begin, end, a[begin - 1])
    modifies a
    ensures Permuted(old(a[..]), a[..], begin, end)
    ensures Turned(lt, a[..], begin, end, badAllowed, turn)
    ensures LastCuts(cuts, begin, end, badAllowed)
    ensures turn.Finished? && INSERTION_SORT_THRESHOLD <= end - begin ==> cuts.Cut? && !cuts.equal && cuts.left.Direct? && cuts.right.Direct?
    ensures turn.Divided? ==> INSERTION_SORT_THRESHOLD <= end - begin && IsPivot(lt, old(a[..]), begin, end, a[turn.pos])
    ensures turn.Divided? ==> (turn.left <==> !leftmost && !lt(old(a[begin - 1]), a[turn.pos]))
    ensures turn.Divided? && turn.left ==> !leftmost && exists k :: begin <= k < end && !lt(old(a[begin - 1]), old(a[k]))
  {
    hide Permuted, Sorted, SplitAt, LastCuts, NearlySorted, SidesShuffled, IsPivot, StrictWeak, Unbalanced;
    var size := end - begin;
    NothingCut(begin, end, badAllowed);
    if size < INSERTION_SORT_THRESHOLD {
      if leftmost {
        InsertionSort(a, begin, end, lt);
      } else {
        UnguardedInsertionSort(a, begin, end, lt);
      }
      return Finished, Direct;
    }
    ghost var s := a[..];
    ghost var m := ChoosePivot(a, begin, end, lt);
    ghost var t, p := a[..], a[begin];
    CellBefore(s, t, begin, end);
    if !leftmost && !lt(a[begin - 1], a[begin]) {
      ghost var k := PermutedFrom(s, t, begin, end, begin);
      Irreflexive(lt, a[begin]);
      var left := PartitionLeft(a, begin, end, lt);
      PermutedTrans(s, t, a[..], begin, end);
      CellBefore(t, a[..], begin, end);
      return Divided(left, true, badAllowed), Direct;
    }
    var pos, already := PartitionAround(a, begin, end, lt, branchless, blockSize, m);
    ghost var u := a[..];
    turn, cuts := AfterCut(a, begin, pos, end, lt, badAllowed, already);
    PermutedTrans(s, t, u, begin, end);
    PermutedTrans(s, u, a[..], begin, end);
  }

  lemma NothingCut(begin: int, end: int, badAllowed: int)
    ensures LastCuts(Direct, begin, end, badAllowed)
  {
  }

  lemma CellBefore<T(!new)>(s: seq<T>, t: seq<T>, begin: int, end: int)
    requires Permuted(s, t, begin, end)
    ensures |s| == |t| && (0 < begin ==> t[begin - 1] == s[begin - 1])
  {
  }

  /** A highly unbalanced cut is shuffled or ends in heap sort; a clean one may be sorted at once. */
  method AfterCut<T(!new)>(a: array<T>, begin: int, pos: int, end: int, lt: (T, T) -> bool, badAllowed: int, already: bool)
    returns (turn: Turn, ghost cuts: Cuts)
    requires StrictWeak(lt) && end <= a.Length && SplitAt(lt, a[..], begin, pos, end)
    requires INSERTION_SORT_THRESHOLD <= end - begin
    modifies a
    ensures Permuted(old(a[..]), a[..], begin, end)
    ensures Turned(lt, a[..], begin, end, badAllowed, turn) && (turn.Divided? ==> !turn.left)
    ensures LastCuts(cuts, begin, end, badAllowed) && (turn.Finished? ==> cuts == Cut(pos, false, Direct, Direct))
    ensures turn.Finished? <==> if Unbalanced(begin, pos, end) then badAllowed == 1 else already && NearlySorted(lt, old(a[..]), begin, pos, end)
    ensures turn.Divided? ==> turn.pos == pos && a[pos] == old(a[pos])
    ensures turn.Divided? && Unbalanced(begin, pos, end) ==> SidesShuffled(old(a[..]), a[..], begin, pos, end)
    ensures turn.Divided? && !Unbalanced(begin, pos, end) && !already ==> a[..] == old(a[..])
  {
    hide NearlySorted, Permuted, SidesShuffled, Sorted, SplitAt, LastCuts, StrictWeak;
    SplitInside(lt, a[..], begin, pos, end);
    LastOf(begin, pos, end, badAllowed);
    PermutedSelf(a[..], begin, end);
    var size, lSize, rSize := end - begin, pos - begin, end - (pos + 1);
    if lSize < size / 8 || rSize < size / 8 {
      if badAllowed - 1 == 0 {
        HeapSort(a, begin, end, lt);
        return Finished, Cut(pos, false, Direct, Direct);
      }
      BreakPatterns(a, begin, pos, end, lt);
      return Divided(pos, false, badAllowed - 1), Direct;
    }
    if already {
      var done := TryInsertion(a, begin, pos, end, lt);
      if done { return Finished, Cut(pos, false, Direct, Direct); }
    }
    return Divided(pos, false, badAllowed), Direct;
  }

  lemma LastOf(begin: int, pos: int, end: int, badAllowed: int)
    requires begin <= pos < end && INSERTION_SORT_THRESHOLD <= end - begin
    ensures LastCuts(Direct, begin, end, badAllowed)
    ensures Unbalanced(begin, pos, end) ==> badAllowed != 0 ==> LastCuts(Cut(pos, false, Direct, Direct), begin, end, badAllowed)
    ensures !Unbalanced(begin, pos, end) ==> LastCuts(Cut(pos, false, Direct, Direct), begin, end, badAllowed)
  {
  }

  /** The loop sorts for any order, any budget of bad cuts and either partition; no path of its cuts
      holds more highly unbalanced ones than the budget. */
  method Loop<T(!new)>(a: array<T>, begin: int, end: int, lt: (T, T) -> bool, badAllowed: int, leftmost: bool,
                       branchless: bool, blockSize: int)
    returns (ghost cuts: Cuts)
    requires StrictWeak(lt) && blockSize > 0 && 0 <= begin <= end <= a.Length
    requires !leftmost ==> 0 < begin && NoneLess(lt, a[..], begin, end, a[begin - 1])
    modifies a
    ensures Permuted(old(a[..]), a[..], begin, end) && Sorted(lt, a[..], begin, end)
    ensures CutsOf(cuts, begin, end)
    ensures badAllowed >= 1 || (badAllowed == 0 && end - begin < INSERTION_SORT_THRESHOLD) ==> Bad(cuts, begin, end) <= badAllowed
    decreases end - begin
  {
    hide Sorted, Permuted, Frontier, SplitAt, NoneLess, AllMore, StrictWeak, Extends, CutsOf, Bad, LastCuts, Whole, IsPivot, Unbalanced;
    ghost var s := a[..];
    FrontierStart(lt, s, begin, end, leftmost);
    ghost var bounded := badAllowed >= 1 || (badAllowed == 0 && end - begin < INSERTION_SORT_THRESHOLD);
    ghost var made, above: bool := [], false;
    ExtendsStart(begin, end, bounded, badAllowed);
    var b, bad, lm := begin, badAllowed, leftmost;
    while true
      invariant begin <= b <= end
      invariant Permuted(s, a[..], begin, end)
      invariant Frontier(lt, a[..], begin, b, end, lm)
      invariant above ==> !lm && 0 < b && AllMore(lt, a[..], b, end, a[b - 1])
      invariant bounded ==> bad >= 1 || (bad == 0 && end - b < INSERTION_SORT_THRESHOLD)
      invariant Extends(made, begin, b, end, bounded, badAllowed, bad, above)
      decreases end - b
    {
      ghost var s0 := a[..];
      FrontierPart(lt, s0, begin, b, end, end, lm);
      var turn, last := TakeTurn(a, b, end, lt, bad, lm, branchless, blockSize);
      PermutedInside(s, s0, a[..], begin, b, end, end);
      FrontierKept(lt, s0, a[..], begin, b, end, lm);
      if turn.Finished? {
        FrontierDone(lt, a[..], begin, b, end, lm);
        cuts := Whole(made, last);
        ExtendsEnd(made, begin, b, end, bounded, badAllowed, bad, above, last);
        return;
      }
      var pos := turn.pos;
      if turn.left {
        NotTwice(lt, s0, b, end);
        LeftCut(lt, a[..], begin, b, end, bad, turn);
        NothingBad(b, pos);
        ExtendsStep(made, Made(pos, true, Direct), begin, b, end, bounded, badAllowed, bad, turn.badAllowed, above);
        made, above := made + [Made(pos, true, Direct)], true;
      } else {
        ghost var s1 := a[..];
        FrontierPart(lt, s1, begin, b, pos, end, lm);
        ghost var child := Loop(a, b, pos, lt, turn.badAllowed, lm, branchless, blockSize);
        PermutedInside(s, s1, a[..], begin, b, pos, end);
        RightCut(lt, s1, a[..], begin, b, end, lm, bad, turn);
        ExtendsStep(made, Made(pos, false, child), begin, b, end, bounded, badAllowed, bad, turn.badAllowed, above);
        made, above := made + [Made(pos, false, child)], false;
      }
      b, bad, lm := pos + 1, turn.badAllowed, false;
    }
  }

  lemma NothingBad(b: int, pos: int)
    ensures CutsOf(Direct, b, pos) && Bad(Direct, b, pos) == 0
  {
  }

  lemma ExtendsStart(begin: int, end: int, bounded: bool, allowed: int)
    ensures Extends([], begin, begin, end, bounded, allowed, allowed, false)
  {
  }

  lemma ExtendsEnd(made: seq<Made>, begin: int, b: int, end: int, bounded: bool, allowed: int, bad: int, above: bool, last: Cuts)
    requires Extends(made, begin, b, end, bounded, allowed, bad, above) && LastCuts(last, b, end, bad)
    requires bounded ==> 0 <= bad
    ensures CutsOf(Whole(made, last), begin, end)
    ensures bounded ==> Bad(Whole(made, last), begin, end) <= allowed
  {
    assert MayFollow(last, b, end, bounded, bad, above);
  }

  /** floor(log2(n)) for n > 0. */
  method FloorLog2(n0: int) returns (log: int)
    requires n0 > 0
    ensures log == Log2(n0)
  {
    log := 0;
    var n := n0 / 2;
    while n != 0
      invariant 0 <= n && log + (if n == 0 then 0 else 1 + Log2(n)) == Log2(n0)
      decreases n
    {
      log := log + 1;
      n := n / 2;
    }
  }

  /** The entry point sorts; a path of its cuts holds at most floor(log2 n) highly unbalanced ones and
      at most 14 floor(log2 n) + 1 in all. */
  method Sort<T(!new)>(a: array<T>, begin: int, end: int, lt: (T, T) -> bool, branchless: bool, blockSize: int)
    returns (ghost cuts: Cuts)
    requires StrictWeak(lt) && blockSize > 0 && 0 <= begin <= end <= a.Length
    modifies a
    ensures Permuted(old(a[..]), a[..], begin, end) && Sorted(lt, a[..], begin, end)
    ensures CutsOf(cuts, begin, end)
    ensures begin < end ==> Bad(cuts, begin, end) <= Log2(end - begin) && Depth(cuts) <= 14 * Log2(end - begin) + 1
    ensures begin < end ==> forall path :: Leads(path, cuts) ==>
              BadOn(path, cuts, begin, end) <= Log2(end - begin) && |path| <= 14 * Log2(end - begin) + 1
  {
    hide Sorted, Permuted, StrictWeak, CutsOf, Bad, Depth, Leads, BadOn;
    cuts := Direct;
    PdqSteps.NoCells(lt, a[..], begin);
    NothingBad(begin, end);
    if begin == end { return; }
    var log := FloorLog2(end - begin);
    cuts := Loop(a, begin, end, lt, log, true, branchless, blockSize);
    LevelsLogarithmic(end - begin);
    DepthBounded(cuts, begin, end);
    forall path | Leads(path, cuts)
      ensures BadOn(path, cuts, begin, end) <= Log2(end - begin) && |path| <= 14 * Log2(end - begin) + 1
    {
      AlongPath(path, cuts, begin, end);
    }
  }
}
