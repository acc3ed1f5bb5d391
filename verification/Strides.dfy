/** Strided cells, fair shares and exchanges of disjoint pairs of cells. */
module Strides {
  import opened Orders
  import opened SumTree

  // ----- strides -----

  /** The j-th cell of the stride that starts at id. */
  function Pos(p: int, id: int, j: int): int {
    id + j * p
  }

  /** The stride and the place in it of cell x. */
  function Col(p: int, x: int): (r: int)
    requires 0 < p
    ensures 0 <= r < p
  {
    x % p
  }

  function Row(p: int, x: int): (r: int)
    requires 0 < p
    ensures 0 <= x ==> 0 <= r
  {
    x / p
  }

  /** How many cells of stride id lie below n. */
  function Share(p: int, n: int, id: int): (r: int)
    requires p > 0
    ensures n >= 0 ==> r >= 0
  {
    n / p + (if id < n % p then 1 else 0)
  }

  lemma MulAtLeast(d: int, p: int)
    requires 0 < p
    ensures d >= 1 ==> d * p >= p
    ensures d <= -1 ==> d * p <= -p
  {
    if d >= 1 {
      assert (d - 1) * p >= 0;
    } else if d <= -1 {
      assert (-1 - d) * p >= 0;
    }
  }

  lemma PosDivMod(p: int, id: int, j: int)
    requires 0 <= id < p && 0 <= j
    ensures 0 <= Pos(p, id, j) && Row(p, Pos(p, id, j)) == j && Col(p, Pos(p, id, j)) == id
  {
    var x := id + j * p;
    assert 0 <= j * p;
    assert (x / p - j) * p == id - x % p;
    MulAtLeast(x / p - j, p);
  }

  lemma PosOf(p: int, x: int)
    requires 0 < p && 0 <= x
    ensures 0 <= Col(p, x) < p && 0 <= Row(p, x) && Pos(p, Col(p, x), Row(p, x)) == x
  {
  }

  /** A share counts exactly the cells of its stride below n. */
  lemma PosBelow(p: int, n: int, id: int, j: int)
    requires 0 <= id < p && 0 <= j && 0 <= n
    ensures Pos(p, id, j) < n <==> j < Share(p, n, id)
  {
    var q, e := n / p, n % p;
    assert n == q * p + e;
    assert Pos(p, id, j) - n == (j - q) * p + (id - e);
    MulAtLeast(j - q, p);
  }

  function ShareSum(p: int, n: int, k: nat): int
    requires p > 0
  {
    if k == 0 then 0 else ShareSum(p, n, k - 1) + Share(p, n, k - 1)
  }

  lemma {:induction false} ShareSumClosed(p: int, n: int, k: nat)
    requires 0 < p && 0 <= n && k <= p
    ensures ShareSum(p, n, k) == k * (n / p) + (if k < n % p then k else n % p)
    decreases k
  {
    if k > 0 {
      ShareSumClosed(p, n, k - 1);
      assert k * (n / p) == (k - 1) * (n / p) + n / p;
    }
  }

  /** The shares of all strides add up. */
  lemma SharesAddUp(p: int, n: int)
    requires 0 < p && 0 <= n
    ensures ShareSum(p, n, p) == n
  {
    ShareSumClosed(p, n, p);
  }

  lemma {:induction false} ShareSumMonotone(p: int, n: int, i: nat, k: nat)
    requires 0 < p && 0 <= n && i <= k
    ensures 0 <= ShareSum(p, n, i) <= ShareSum(p, n, k)
    decreases k
  {
    if i < k {
      ShareSumMonotone(p, n, i, k - 1);
    } else if i > 0 {
      ShareSumMonotone(p, n, i - 1, i - 1);
    }
  }

  /** Where the id-th share begins and that it stays within all items. */
  lemma ShareSpan(p: int, n: int, id: nat)
    requires 0 < p && 0 <= n && id < p
    ensures ShareSum(p, n, id) == (n / p) * id + (if id < n % p then id else n % p)
    ensures 0 <= ShareSum(p, n, id) && ShareSum(p, n, id) + Share(p, n, id) == ShareSum(p, n, id + 1) <= n
  {
    ShareSumClosed(p, n, id);
    ShareSumMonotone(p, n, 0, id);
    ShareSumMonotone(p, n, id + 1, p);
    SharesAddUp(p, n);
  }

  /** Every item below the sum of the first k shares lies in one of them. */
  lemma {:induction false} ShareOwner(p: int, n: int, k: nat, j: int) returns (id: int)
    requires 0 < p && 0 <= j < ShareSum(p, n, k)
    ensures 0 <= id < k && ShareSum(p, n, id) <= j < ShareSum(p, n, id + 1)
    decreases k
  {
    if ShareSum(p, n, k - 1) <= j {
      id := k - 1;
    } else {
      id := ShareOwner(p, n, k - 1, j);
    }
  }

  // ----- exchanging pairs of cells -----

  /** rc[j] and lc[j] are the cells of pair j; all cells are different. */
  ghost predicate Pairs(rc: seq<int>, lc: seq<int>, n: int) {
    && |rc| == |lc|
    && (forall j :: 0 <= j < |rc| ==> 0 <= rc[j] < n && 0 <= lc[j] < n)
    && (forall i, j :: 0 <= i < j < |rc| ==> rc[i] != rc[j])
    && (forall i, j :: 0 <= i < j < |lc| ==> lc[i] != lc[j])
    && (forall i, j :: 0 <= i < |rc| && 0 <= j < |lc| ==> rc[i] != lc[j])
  }

  /** t arises from s by exchanging the cells of the pairs in done. */
  ghost predicate Exchanged<T(!new)>(s: seq<T>, t: seq<T>, rc: seq<int>, lc: seq<int>, done: set<int>) {
    && |s| == |t| && multiset(s) == multiset(t)
    && Pairs(rc, lc, |s|)
    && (forall j :: 0 <= j < |rc| ==> t[rc[j]] == if j in done then s[lc[j]] else s[rc[j]])
    && (forall j :: 0 <= j < |lc| ==> t[lc[j]] == if j in done then s[rc[j]] else s[lc[j]])
    && (forall x :: 0 <= x < |s| && x !in rc && x !in lc ==> t[x] == s[x])
  }

  /** The order in which pairs are exchanged does not matter. */
  lemma ExchangedDetermined<T(!new)>(s: seq<T>, t: seq<T>, u: seq<T>, rc: seq<int>, lc: seq<int>, done: set<int>)
    requires Exchanged(s, t, rc, lc, done) && Exchanged(s, u, rc, lc, done)
    ensures t == u
  {
    forall x | 0 <= x < |s|
      ensures t[x] == u[x]
    {
      if x in rc {
        var j :| 0 <= j < |rc| && rc[j] == x;
        assert t[rc[j]] == u[rc[j]];
      } else if x in lc {
        var j :| 0 <= j < |lc| && lc[j] == x;
        assert t[lc[j]] == u[lc[j]];
      }
    }
  }

  lemma PairStep<T(!new)>(s: seq<T>, t: seq<T>, u: seq<T>, rc: seq<int>, lc: seq<int>, done: set<int>, j: int)
    requires Exchanged(s, t, rc, lc, done) && 0 <= j < |rc| && j !in done
    requires u == t[rc[j] := t[lc[j]]][lc[j] := t[rc[j]]]
    ensures Exchanged(s, u, rc, lc, done + {j})
  {
    SwapPermutes(t, u, rc[j], lc[j], 0, |t|);
  }
}
