/** How threads are scheduled between two barriers. */
module Schedules {
  import opened SumTree

  /** An order in which blocks are worked on: at[t] is the t-th one and place[id] is when id is. */
  datatype Order = Order(at: seq<int>, place: seq<int>)

  ghost predicate IsOrder(o: Order, n: int) {
    && |o.at| == |o.place| == n
    && (forall t :: 0 <= t < n ==> 0 <= o.at[t] < n && o.place[o.at[t]] == t)
    && (forall id :: 0 <= id < n ==> 0 <= o.place[id] < n && o.at[o.place[id]] == id)
  }

  /** The threads that have not reached the next barrier; a scheduler lets any of them take its next
      step, so that every interleaving of their steps occurs. */
  ghost predicate Unfinished(todo: seq<int>, n: int) {
    && (forall i :: 0 <= i < |todo| ==> 0 <= todo[i] < n)
    && (forall i, j :: 0 <= i < j < |todo| ==> todo[i] != todo[j])
  }

  function All(n: nat): (todo: seq<int>)
    ensures Unfinished(todo, n) && |todo| == n
    ensures forall id :: id in todo <==> 0 <= id < n
  {
    if n == 0 then [] else All(n - 1) + [n - 1]
  }

  /** The scheduler's choice in a step. */
  function Chosen(pick: int -> nat, step: int, todo: seq<int>): (j: int)
    requires todo != []
    ensures 0 <= j < |todo|
  {
    pick(step) % |todo|
  }

  lemma Picked(todo: seq<int>, j: int, n: int)
    requires Unfinished(todo, n) && 0 <= j < |todo|
    ensures 0 <= todo[j] < n && todo[j] in todo
  {
  }

  function Without(todo: seq<int>, j: int): (rest: seq<int>)
    requires 0 <= j < |todo|
    ensures |rest| == |todo| - 1
  {
    todo[..j] + todo[j + 1..]
  }

  lemma Leaves(todo: seq<int>, j: int, n: int)
    requires Unfinished(todo, n) && 0 <= j < |todo|
    ensures Unfinished(Without(todo, j), n)
    ensures forall id :: id in Without(todo, j) <==> id in todo && id != todo[j]
  {
    var rest := Without(todo, j);
    forall id
      ensures id in rest <==> id in todo && id != todo[j]
    {
      if id in todo && id != todo[j] {
        var i :| 0 <= i < |todo| && todo[i] == id;
        assert rest[if i < j then i else i - 1] == id;
      }
    }
  }

  lemma {:induction false} SumChanged(work: seq<int>, hi: int, id: int, x: int)
    requires 0 <= id < hi <= |work|
    ensures Sum(work[id := x], 0, hi) == Sum(work, 0, hi) - work[id] + x
    decreases hi
  {
    if id < hi - 1 {
      SumChanged(work, hi - 1, id, x);
    } else {
      SumSame(work, work[id := x], 0, hi - 1);
    }
  }

  /** A thread that does some of its work lowers the work of all. */
  lemma LessWork(work: seq<int>, n: int, id: int, x: int)
    requires Natural(work) && 0 <= id < n <= |work| && 0 <= x < work[id]
    ensures Natural(work[id := x]) && 0 <= Sum(work[id := x], 0, n) < Sum(work, 0, n)
  {
    SumChanged(work, n, id, x);
    SumNatural(work[id := x], 0, n);
  }
}
