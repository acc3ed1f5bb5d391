/** One side of the chunk-fetch partition of mcstl_partition.h.

    Threads take chunks of `chunk` cells from one shared cursor.  The left side hands chunks out
    upwards from `first`, the right side downwards from `last`; read backwards, the right side is
    another left side.  Both are therefore described by this module, in coordinates that grow in
    the direction in which the cursor `edge` moves, and every invariant is proved once. */
module ChunkSide {

  /** What one thread holds on this side: the cells cur..end of its chunk are still unknown,
      `spot` is the reservation it made for a leftover chunk (-1: none), `target` the first cell
      of that reservation, and `moved` counts the cells already exchanged with it. */
  datatype Lane = Lane(cur: int, end: int, spot: int, target: int, moved: int)

  /** `good[i]`: cell i satisfies the predicate this side is collecting.
      `upward`: leftover chunks are moved from their lowest cell up (left side) or from their
      highest cell down (right side, in mirrored coordinates). */
  datatype Side = Side(chunk: int, base: int, edge: int, good: seq<bool>, lanes: seq<Lane>, upward: bool)

  predicate Held(l: Lane) {
    l.cur <= l.end
  }

  predicate HeldAt(v: Side, t: int) {
    0 <= t < |v.lanes| && Held(v.lanes[t])
  }

  function HeldSet(v: Side): set<int> {
    set t | 0 <= t < |v.lanes| && HeldAt(v, t)
  }

  function Begin(v: Side, l: Lane): int {
    l.end - v.chunk + 1
  }

  /** First cell of the r-th spot counted down from the edge: edge - (r + 1) * chunk. */
  function SpotStart(edge: int, chunk: int, r: int): int {
    if r < 0 then edge else SpotStart(edge, chunk, r - 1) - chunk
  }

  /** Offset of the next cell to exchange when `moved` cells are done. */
  function NextOffset(v: Side, moved: int): int {
    if v.upward then moved else v.chunk - 1 - moved
  }

  predicate Moved(v: Side, l: Lane, off: int) {
    if v.upward then off < l.moved else off >= v.chunk - l.moved
  }

  /** Cell i may still be bad because of thread t. */
  predicate Dirty(v: Side, t: int, i: int) {
    && HeldAt(v, t)
    && var l := v.lanes[t];
       (|| (Begin(v, l) <= i <= l.end && l.cur <= i && !Moved(v, l, i - Begin(v, l)))
        || (l.target <= i < l.target + v.chunk && Moved(v, l, i - l.target)))
  }

  predicate Placed(v: Side, l: Lane) {
    v.base <= Begin(v, l) <= l.cur && l.end < v.edge
  }

  predicate Apart(v: Side, t: int, u: int)
    requires HeldAt(v, t) && HeldAt(v, u)
  {
    v.lanes[t].end + v.chunk <= v.lanes[u].end || v.lanes[u].end + v.chunk <= v.lanes[t].end
  }

  /** The ownership invariant of one side: held chunks lie between base and edge and are pairwise
      disjoint, and every cell before the edge is good unless it is dirty. */
  ghost predicate Lawful(v: Side) {
    && 1 <= v.chunk
    && 0 <= v.base <= v.edge <= |v.good|
    && (forall t :: HeldAt(v, t) ==> Placed(v, v.lanes[t]))
    && (forall t, u :: t != u && HeldAt(v, t) && HeldAt(v, u) ==> Apart(v, t, u))
    && (forall i :: 0 <= i < v.edge && !v.good[i] ==> exists t :: Dirty(v, t, i))
  }

  /** Held chunks start a whole number of chunks before the edge, and there is room for all. */
  ghost predicate Aligned(v: Side) {
    && 1 <= v.chunk
    && (forall t :: HeldAt(v, t) ==> (v.edge - v.lanes[t].end - 1) % v.chunk == 0)
    && |HeldSet(v)| * v.chunk <= v.edge - v.base
  }

  /** No reservation has been made. */
  predicate Unreserved(v: Side) {
    forall t :: 0 <= t < |v.lanes| && HeldAt(v, t) ==> v.lanes[t].spot == -1 && v.lanes[t].moved == 0
  }

  predicate SpotOk(v: Side, zone: int, total: int, reserved: seq<bool>, l: Lane)
    requires 0 <= total <= |reserved|
  {
    if l.spot < 0 then l.spot == -1 && l.moved == 0
    else
      && l.spot < total && reserved[l.spot]
      && 0 <= l.moved <= v.chunk
      && (l.end >= zone ==> l.moved == 0 && Begin(v, l) == SpotStart(v.edge, v.chunk, l.spot))
      && (l.end < zone ==> l.target == SpotStart(v.edge, v.chunk, l.spot))
  }

  predicate OwnsSpot(v: Side, t: int, r: int) {
    HeldAt(v, t) && v.lanes[t].spot == r
  }

  /** The reservation table: every held reservation is marked, no two threads share one, and
      every mark has an owner.  `zone` is the first cell of the middle zone, total spots wide. */
  ghost predicate SpotLaw(v: Side, zone: int, total: int, reserved: seq<bool>) {
    && 0 <= total <= |reserved|
    && zone == SpotStart(v.edge, v.chunk, total - 1)
    && (forall t :: HeldAt(v, t) ==> SpotOk(v, zone, total, reserved, v.lanes[t]))
    && (forall r, t, u :: t != u && r >= 0 && OwnsSpot(v, t, r) ==> !OwnsSpot(v, u, r))
    && (forall r :: 0 <= r < total && reserved[r] ==> exists t :: OwnsSpot(v, t, r))
  }

  /** Every leftover chunk that is already in place has reserved its own spot. */
  ghost predicate InPlaceReserved(v: Side, zone: int) {
    forall t :: HeldAt(v, t) && v.lanes[t].end >= zone ==> v.lanes[t].spot >= 0
  }

  // ----- arithmetic of aligned chunks -----

  lemma {:induction false} SpotStartIs(edge: int, chunk: int, r: int)
    requires r >= -1
    ensures SpotStart(edge, chunk, r) == edge - (r + 1) * chunk
  {
    if r >= 0 {
      SpotStartIs(edge, chunk, r - 1);
      assert (r + 1) * chunk == r * chunk + chunk;
    }
  }

  /** Later spots lie entirely before earlier ones. */
  lemma {:induction false} SpotsDescend(edge: int, chunk: int, q: int, r: int)
    requires -1 <= q < r && 1 <= chunk
    ensures SpotStart(edge, chunk, r) + chunk <= SpotStart(edge, chunk, q) <= edge
    decreases r
  {
    if q >= 0 {
      SpotsDescend(edge, chunk, -1, q);
    }
    if q + 1 < r {
      SpotsDescend(edge, chunk, q, r - 1);
    }
  }

  lemma ModShift(x: int, c: int)
    requires 1 <= c && x % c == 0
    ensures (x + c) % c == 0
  {
    var q := x / c;
    assert x + c == (q + 1) * c;
    ModOfMultiple(q + 1, c);
  }

  lemma ModOfMultiple(q: int, c: int)
    requires 1 <= c
    ensures (q * c) % c == 0 && (q * c) / c == q
  {
    var d, m := (q * c) / c, (q * c) % c;
    assert (q - d) * c == m;
    assert (d - q) * c == -m;
    if q - d >= 1 {
      MulAtLeast(q - d, c);
    } else if q - d <= -1 {
      MulAtLeast(d - q, c);
    }
  }

  lemma MulAtLeast(k: int, c: int)
    requires k >= 1 && c >= 1
    ensures k * c >= c
  {
    assert k * c == c + (k - 1) * c;
  }

  /** The reservation index of a chunk that is already in place is in range and names its place. */
  lemma InPlaceSpot(edge: int, chunk: int, zone: int, total: int, end: int)
    requires 1 <= chunk && 0 <= total && zone == SpotStart(edge, chunk, total - 1)
    requires zone <= end < edge && (edge - end - 1) % chunk == 0
    ensures var r := (edge - end - 1) / chunk;
            0 <= r < total && SpotStart(edge, chunk, r) == end - chunk + 1
  {
    var r := (edge - end - 1) / chunk;
    assert edge - end - 1 == r * chunk;
    assert (-r) * chunk == -(r * chunk);
    if r < 0 {
      MulAtLeast(-r, chunk);
    }
    SpotStartIs(edge, chunk, r);
    assert (r + 1) * chunk == r * chunk + chunk;
    if r >= total {
      SpotsDescend(edge, chunk, total - 1, r);
    }
  }

  // ----- finite sets -----

  predicate InRange(t: int, n: int) {
    0 <= t < n
  }

  function Range(n: int): set<int> {
    set t | 0 <= t < n && InRange(t, n)
  }

  lemma {:induction false} RangeCard(n: nat)
    ensures |Range(n)| == n
  {
    if n > 0 {
      RangeCard(n - 1);
      assert forall t :: InRange(t, n) <==> InRange(t, n - 1) || t == n - 1;
      assert Range(n) == Range(n - 1) + {n - 1};
    }
  }

  lemma {:induction false} SubsetCard<A>(x: set<A>, y: set<A>)
    requires x <= y
    ensures |x| <= |y|
  {
    if x != {} {
      var e :| e in x;
      SubsetCard(x - {e}, y - {e});
    }
  }

  // ----- the moves of one side -----

  /** Nothing this side can see changed. */
  lemma KeepLawful(v: Side, w: Side)
    requires Lawful(v)
    requires w == v.(good := w.good) && |w.good| == |v.good|
    requires forall i :: 0 <= i < v.edge ==> w.good[i] == v.good[i]
    ensures Lawful(w)
  {
    forall i | 0 <= i < w.edge && !w.good[i]
      ensures exists t :: Dirty(w, t, i)
    {
      var t :| Dirty(v, t, i);
      assert Dirty(w, t, i);
    }
    forall t, u | t != u && HeldAt(w, t) && HeldAt(w, u)
      ensures Apart(w, t, u)
    {
      assert HeldAt(v, t) && HeldAt(v, u);
    }
    forall t | HeldAt(w, t)
      ensures Placed(w, w.lanes[t])
    {
      assert HeldAt(v, t);
    }
  }

  /** A lane that holds nothing, before and after, may change freely. */
  lemma IdleLaneKeeps(v: Side, w: Side, t: int)
    requires Lawful(v)
    requires 0 <= t < |v.lanes| == |w.lanes| && !HeldAt(v, t) && !HeldAt(w, t)
    requires w == v.(lanes := v.lanes[t := w.lanes[t]])
    ensures Lawful(w) && forall u :: HeldAt(w, u) ==> HeldAt(v, u) && w.lanes[u] == v.lanes[u]
  {
    forall u | HeldAt(w, u)
      ensures HeldAt(v, u) && w.lanes[u] == v.lanes[u] && Placed(w, w.lanes[u])
    {
      assert HeldAt(v, u);
    }
    forall u, u' | u != u' && HeldAt(w, u) && HeldAt(w, u')
      ensures Apart(w, u, u')
    {
      assert HeldAt(v, u) && HeldAt(v, u');
    }
    forall i | 0 <= i < w.edge && !w.good[i]
      ensures exists u :: Dirty(w, u, i)
    {
      var u :| Dirty(v, u, i);
      assert Dirty(w, u, i);
    }
  }

  /** Thread t takes the next chunk. */
  lemma FetchKeeps(v: Side, w: Side, t: int)
    requires Lawful(v) && Unreserved(v)
    requires 0 <= t < |v.lanes| && !HeldAt(v, t)
    requires v.edge + v.chunk <= |v.good|
    requires |w.lanes| == |v.lanes| && w.lanes == v.lanes[t := w.lanes[t]]
    requires w.lanes[t].cur == v.edge && w.lanes[t].end == v.edge + v.chunk - 1
    requires w.lanes[t].spot == -1 && w.lanes[t].moved == 0
    requires w == v.(edge := v.edge + v.chunk, lanes := w.lanes)
    ensures Lawful(w) && Unreserved(w)
  {
    forall u | HeldAt(w, u)
      ensures u != t ==> HeldAt(v, u)
      ensures Placed(w, w.lanes[u])
    {
    }
    forall u, u' | u != u' && HeldAt(w, u) && HeldAt(w, u')
      ensures Apart(w, u, u')
    {
      if u != t && u' != t {
        assert HeldAt(v, u) && HeldAt(v, u');
      }
    }
    forall i | 0 <= i < w.edge && !w.good[i]
      ensures exists u :: Dirty(w, u, i)
    {
      if i < v.edge {
        var u :| Dirty(v, u, i);
        assert Dirty(w, u, i);
      } else {
        assert Dirty(w, t, i);
      }
    }
  }

  lemma FetchAligned(v: Side, w: Side, t: int)
    requires Aligned(v)
    requires 0 <= t < |v.lanes| && !HeldAt(v, t)
    requires |w.lanes| == |v.lanes| && w.lanes == v.lanes[t := w.lanes[t]] && Held(w.lanes[t])
    requires w.lanes[t].end == v.edge + v.chunk - 1
    requires w == v.(edge := v.edge + v.chunk, lanes := w.lanes)
    ensures Aligned(w)
  {
    assert HeldSet(w) == HeldSet(v) + {t} by {
      assert forall u :: u != t ==> (HeldAt(w, u) <==> HeldAt(v, u));
      assert HeldAt(w, t);
    }
    assert (|HeldSet(v)| + 1) * v.chunk == |HeldSet(v)| * v.chunk + v.chunk;
    forall u | HeldAt(w, u)
      ensures (w.edge - w.lanes[u].end - 1) % w.chunk == 0
    {
      if u != t {
        assert HeldAt(v, u);
        ModShift(v.edge - v.lanes[u].end - 1, v.chunk);
      } else {
        ModOfMultiple(0, w.chunk);
      }
    }
  }

  /** The chunk ends and the cursor are as before and nothing new is held. */
  lemma KeepAligned(v: Side, w: Side)
    requires Aligned(v)
    requires w.chunk == v.chunk && w.base == v.base && w.edge == v.edge && |w.lanes| == |v.lanes|
    requires forall t :: HeldAt(w, t) ==> HeldAt(v, t) && w.lanes[t].end == v.lanes[t].end
    ensures Aligned(w)
  {
    SubsetCard(HeldSet(w), HeldSet(v));
    var k := |HeldSet(v)| - |HeldSet(w)|;
    assert |HeldSet(v)| * v.chunk == |HeldSet(w)| * v.chunk + k * v.chunk;
    assert k * v.chunk >= 0;
  }

  /** Thread t passes its current cell, which is good (or has just been made good). */
  lemma AdvanceKeeps(v: Side, w: Side, t: int)
    requires Lawful(v) && Unreserved(v)
    requires HeldAt(v, t)
    requires w == v.(good := w.good, lanes := v.lanes[t := v.lanes[t].(cur := v.lanes[t].cur + 1)])
    requires |w.good| == |v.good|
    requires 0 <= v.lanes[t].cur < v.edge ==> w.good[v.lanes[t].cur]
    requires forall i :: 0 <= i < v.edge && i != v.lanes[t].cur ==> w.good[i] == v.good[i]
    ensures Lawful(w) && Unreserved(w)
  {
    forall u | HeldAt(w, u)
      ensures HeldAt(v, u) && Placed(w, w.lanes[u])
    {
      assert HeldAt(v, u);
    }
    forall u, u' | u != u' && HeldAt(w, u) && HeldAt(w, u')
      ensures Apart(w, u, u')
    {
      assert HeldAt(v, u) && HeldAt(v, u');
    }
    forall i | 0 <= i < w.edge && !w.good[i]
      ensures exists u :: Dirty(w, u, i)
    {
      var u :| Dirty(v, u, i);
      assert Dirty(w, u, i);
    }
  }

  /** Thread t writes down reservation r without moving anything. */
  lemma ReserveKeeps(v: Side, w: Side, t: int, zone: int, r: int, total: int, before: seq<bool>, after: seq<bool>)
    requires Lawful(v) && SpotLaw(v, zone, total, before)
    requires HeldAt(v, t) && v.lanes[t].spot == -1
    requires 0 <= r < total
    requires forall u :: !OwnsSpot(v, u, r)
    requires |w.lanes| == |v.lanes| && w == v.(lanes := v.lanes[t := v.lanes[t].(spot := r, target := w.lanes[t].target)])
    requires v.lanes[t].end >= zone ==> Begin(v, v.lanes[t]) == SpotStart(v.edge, v.chunk, r)
    requires v.lanes[t].end < zone ==> w.lanes[t].target == SpotStart(v.edge, v.chunk, r)
    requires after == before[r := true]
    ensures Lawful(w) && SpotLaw(w, zone, total, after)
  {
    forall u | HeldAt(w, u)
      ensures HeldAt(v, u) && Placed(w, w.lanes[u])
    {
      assert HeldAt(v, u);
    }
    forall u, u' | u != u' && HeldAt(w, u) && HeldAt(w, u')
      ensures Apart(w, u, u')
    {
      assert HeldAt(v, u) && HeldAt(v, u');
    }
    assert v.lanes[t].moved == 0;
    forall i | 0 <= i < w.edge && !w.good[i]
      ensures exists u :: Dirty(w, u, i)
    {
      var u :| Dirty(v, u, i);
      assert Dirty(w, u, i);
    }
    ReserveSpotLaw(v, w, t, zone, r, total, before, after);
  }

  lemma ReserveSpotLaw(v: Side, w: Side, t: int, zone: int, r: int, total: int, before: seq<bool>, after: seq<bool>)
    requires SpotLaw(v, zone, total, before) && 1 <= v.chunk
    requires HeldAt(v, t) && v.lanes[t].spot == -1
    requires 0 <= r < total
    requires forall u :: !OwnsSpot(v, u, r)
    requires |w.lanes| == |v.lanes| && w == v.(lanes := v.lanes[t := v.lanes[t].(spot := r, target := w.lanes[t].target)])
    requires v.lanes[t].end >= zone ==> Begin(v, v.lanes[t]) == SpotStart(v.edge, v.chunk, r)
    requires v.lanes[t].end < zone ==> w.lanes[t].target == SpotStart(v.edge, v.chunk, r)
    requires after == before[r := true]
    ensures SpotLaw(w, zone, total, after)
  {
    assert SpotOk(v, zone, total, before, v.lanes[t]);
    assert forall u, q :: u != t ==> (OwnsSpot(w, u, q) <==> OwnsSpot(v, u, q));
    assert forall q :: OwnsSpot(w, t, q) <==> q == r;
    forall u | HeldAt(w, u)
      ensures SpotOk(w, zone, total, after, w.lanes[u])
    {
      assert HeldAt(v, u);
      assert SpotOk(v, zone, total, before, v.lanes[u]);
    }
    forall q | 0 <= q < total && after[q]
      ensures exists u :: OwnsSpot(w, u, q)
    {
      if q == r {
        assert OwnsSpot(w, t, q);
      } else {
        var u :| OwnsSpot(v, u, q);
        assert OwnsSpot(w, u, q);
      }
    }
  }

  lemma IdleSpotLaw(v: Side, w: Side, t: int, zone: int, total: int, reserved: seq<bool>)
    requires SpotLaw(v, zone, total, reserved)
    requires 0 <= t < |v.lanes| == |w.lanes| && !HeldAt(v, t) && !HeldAt(w, t)
    requires w == v.(good := w.good, lanes := v.lanes[t := w.lanes[t]])
    ensures SpotLaw(w, zone, total, reserved)
  {
    assert forall u, r :: OwnsSpot(w, u, r) <==> OwnsSpot(v, u, r);
    forall u | HeldAt(w, u)
      ensures SpotOk(w, zone, total, reserved, w.lanes[u])
    {
      assert HeldAt(v, u);
      assert SpotOk(v, zone, total, reserved, v.lanes[u]);
    }
    forall r | 0 <= r < total && reserved[r]
      ensures exists u :: OwnsSpot(w, u, r)
    {
      var u :| OwnsSpot(v, u, r);
      assert OwnsSpot(w, u, r);
    }
  }

  /** The next destination cell of a moving chunk belongs to nobody else and is good. */
  lemma DestinationGood(v: Side, t: int, zone: int, total: int, reserved: seq<bool>)
    requires Lawful(v) && SpotLaw(v, zone, total, reserved) && InPlaceReserved(v, zone)
    requires HeldAt(v, t) && v.base <= zone
    requires v.lanes[t].end < zone && v.lanes[t].spot >= 0 && v.lanes[t].moved < v.chunk
    ensures zone <= v.lanes[t].target && 0 <= v.lanes[t].moved
    ensures var off := NextOffset(v, v.lanes[t].moved);
            && 0 <= off < v.chunk
            && v.base <= Begin(v, v.lanes[t]) + off < zone
            && zone <= v.lanes[t].target + off < v.edge
            && v.good[v.lanes[t].target + off]
  {
    var l := v.lanes[t];
    assert SpotOk(v, zone, total, reserved, l);
    var dst := l.target + NextOffset(v, l.moved);
    SpotInZone(v.edge, v.chunk, zone, total, l.spot);
    assert Placed(v, l);
    if !v.good[dst] {
      var u :| Dirty(v, u, dst);
      if u != t {
        OtherNotAt(v, t, u, zone, total, reserved, dst);
      }
      assert false;
    }
  }

  lemma SpotInZone(edge: int, chunk: int, zone: int, total: int, r: int)
    requires 1 <= chunk && 0 <= r < total && zone == SpotStart(edge, chunk, total - 1)
    ensures zone <= SpotStart(edge, chunk, r) <= edge - chunk
  {
    SpotsDescend(edge, chunk, -1, r);
    if r < total - 1 {
      SpotsDescend(edge, chunk, r, total - 1);
    }
  }

  predicate Moving(v: Side, t: int, zone: int) {
    HeldAt(v, t) && v.lanes[t].end < zone && v.lanes[t].spot >= 0
  }

  predicate RangesApart(chunk: int, i: int, k: int) {
    i + chunk <= k || k + chunk <= i
  }

  /** A chunk on the move and its spot lie before the edge. */
  lemma MoveInside(v: Side, t: int, zone: int, total: int, reserved: seq<bool>)
    requires Lawful(v) && SpotLaw(v, zone, total, reserved) && Moving(v, t, zone)
    ensures var l := v.lanes[t];
            && v.base <= Begin(v, l) && Begin(v, l) + v.chunk <= zone
            && zone <= l.target == SpotStart(v.edge, v.chunk, l.spot) && l.target + v.chunk <= v.edge
  {
    var l := v.lanes[t];
    assert SpotOk(v, zone, total, reserved, l) && Placed(v, l);
    SpotInZone(v.edge, v.chunk, zone, total, l.spot);
  }

  /** Chunks on the move and their spots are pairwise disjoint. */
  lemma MovesApart(v: Side, t: int, u: int, zone: int, total: int, reserved: seq<bool>)
    requires Lawful(v) && SpotLaw(v, zone, total, reserved) && Moving(v, t, zone) && Moving(v, u, zone)
    ensures RangesApart(v.chunk, Begin(v, v.lanes[t]), v.lanes[u].target)
    ensures t != u ==> RangesApart(v.chunk, Begin(v, v.lanes[t]), Begin(v, v.lanes[u]))
    ensures t != u ==> RangesApart(v.chunk, v.lanes[t].target, v.lanes[u].target)
  {
    MoveInside(v, t, zone, total, reserved);
    MoveInside(v, u, zone, total, reserved);
    if t != u {
      assert Apart(v, t, u);
      assert OwnsSpot(v, t, v.lanes[t].spot) && !OwnsSpot(v, u, v.lanes[t].spot);
      if v.lanes[t].spot < v.lanes[u].spot {
        SpotsDescend(v.edge, v.chunk, v.lanes[t].spot, v.lanes[u].spot);
      } else {
        SpotsDescend(v.edge, v.chunk, v.lanes[u].spot, v.lanes[t].spot);
      }
    }
  }

  /** No other thread is dirty inside the spot that thread t reserved. */
  lemma OtherNotAt(v: Side, t: int, u: int, zone: int, total: int, reserved: seq<bool>, i: int)
    requires Lawful(v) && SpotLaw(v, zone, total, reserved) && InPlaceReserved(v, zone)
    requires HeldAt(v, t) && v.lanes[t].end < zone && v.lanes[t].spot >= 0
    requires t != u && v.lanes[t].target <= i < v.lanes[t].target + v.chunk
    ensures !Dirty(v, u, i)
  {
    if Dirty(v, u, i) {
      var l, k := v.lanes[t], v.lanes[u];
      assert SpotOk(v, zone, total, reserved, l);
      assert SpotOk(v, zone, total, reserved, k);
      SpotInZone(v.edge, v.chunk, zone, total, l.spot);
      assert OwnsSpot(v, t, l.spot) && !OwnsSpot(v, u, l.spot);
      if k.spot >= 0 {
        if k.spot < l.spot {
          SpotsDescend(v.edge, v.chunk, k.spot, l.spot);
        } else {
          SpotsDescend(v.edge, v.chunk, l.spot, k.spot);
        }
      }
      assert false;
    }
  }

  /** The exchange of one cell of thread t's leftover chunk with its reserved spot. */
  ghost predicate MovesOne(v: Side, w: Side, t: int)
    requires HeldAt(v, t)
  {
    var off := NextOffset(v, v.lanes[t].moved);
    var src, dst := Begin(v, v.lanes[t]) + off, v.lanes[t].target + off;
    && w == v.(good := w.good, lanes := v.lanes[t := v.lanes[t].(moved := v.lanes[t].moved + 1)])
    && |w.good| == |v.good|
    && (0 <= src < v.edge && 0 <= dst < v.edge ==>
          v.edge <= |v.good| && w.good[src] == v.good[dst] && w.good[dst] == v.good[src])
    && (forall i :: 0 <= i < v.edge && i < |v.good| && i != src && i != dst ==> w.good[i] == v.good[i])
  }

  lemma MoveKeeps(v: Side, w: Side, t: int, zone: int, total: int, reserved: seq<bool>)
    requires Lawful(v) && SpotLaw(v, zone, total, reserved) && InPlaceReserved(v, zone)
    requires HeldAt(v, t) && v.base <= zone
    requires v.lanes[t].end < zone && v.lanes[t].spot >= 0 && v.lanes[t].moved < v.chunk
    requires MovesOne(v, w, t)
    ensures Lawful(w) && SpotLaw(w, zone, total, reserved) && InPlaceReserved(w, zone)
  {
    DestinationGood(v, t, zone, total, reserved);
    MoveLawful(v, w, t, zone);
    MoveSpotLaw(v, w, t, zone, total, reserved);
  }

  /** Where a move of thread t takes place: from its own chunk before the zone into the zone. */
  ghost predicate MoveRoom(v: Side, t: int, zone: int)
    requires HeldAt(v, t)
  {
    var off := NextOffset(v, v.lanes[t].moved);
    && 0 <= v.lanes[t].moved < v.chunk && 0 <= v.base
    && v.base <= Begin(v, v.lanes[t]) + off < zone <= v.lanes[t].target + off < v.edge <= |v.good|
    && v.lanes[t].end < zone <= v.lanes[t].target
    && v.good[v.lanes[t].target + off]
  }

  /** A move leaves every cell dirty that was dirty, except the one it fills. */
  lemma MoveDirty(v: Side, w: Side, t: int, zone: int, u: int, i: int)
    requires HeldAt(v, t) && MoveRoom(v, t, zone) && MovesOne(v, w, t)
    requires Dirty(v, u, i) && i != Begin(v, v.lanes[t]) + NextOffset(v, v.lanes[t].moved)
    ensures Dirty(w, u, i)
  {
    if u != t {
      assert w.lanes[u] == v.lanes[u];
    }
  }

  lemma MoveLawful(v: Side, w: Side, t: int, zone: int)
    requires Lawful(v) && HeldAt(v, t) && MoveRoom(v, t, zone) && MovesOne(v, w, t)
    ensures Lawful(w)
  {
    forall u | HeldAt(w, u)
      ensures HeldAt(v, u) && Placed(w, w.lanes[u])
    {
      assert HeldAt(v, u);
    }
    forall u, u' | u != u' && HeldAt(w, u) && HeldAt(w, u')
      ensures Apart(w, u, u')
    {
      assert HeldAt(v, u) && HeldAt(v, u');
    }
    forall i | 0 <= i < w.edge && !w.good[i]
      ensures exists u :: Dirty(w, u, i)
    {
      MoveBad(v, w, t, zone, i);
    }
  }

  lemma MoveBad(v: Side, w: Side, t: int, zone: int, i: int)
    requires Lawful(v) && HeldAt(v, t) && MoveRoom(v, t, zone) && MovesOne(v, w, t)
    requires 0 <= i < v.edge && !w.good[i]
    ensures exists u :: Dirty(w, u, i)
  {
    if i == v.lanes[t].target + NextOffset(v, v.lanes[t].moved) {
      assert Dirty(w, t, i);
    } else {
      var u :| Dirty(v, u, i);
      MoveDirty(v, w, t, zone, u, i);
    }
  }

  lemma MoveSpotLaw(v: Side, w: Side, t: int, zone: int, total: int, reserved: seq<bool>)
    requires SpotLaw(v, zone, total, reserved) && InPlaceReserved(v, zone)
    requires HeldAt(v, t) && v.lanes[t].end < zone && v.lanes[t].spot >= 0 && v.lanes[t].moved < v.chunk
    requires w == v.(good := w.good, lanes := v.lanes[t := v.lanes[t].(moved := v.lanes[t].moved + 1)])
    ensures SpotLaw(w, zone, total, reserved) && InPlaceReserved(w, zone)
  {
    assert forall u, r :: OwnsSpot(w, u, r) <==> OwnsSpot(v, u, r);
    forall u | HeldAt(w, u)
      ensures SpotOk(w, zone, total, reserved, w.lanes[u])
      ensures w.lanes[u].end >= zone ==> w.lanes[u].spot >= 0
    {
      assert HeldAt(v, u);
      assert SpotOk(v, zone, total, reserved, v.lanes[u]);
    }
    forall r | 0 <= r < total && reserved[r]
      ensures exists u :: OwnsSpot(w, u, r)
    {
      var u :| OwnsSpot(v, u, r);
      assert OwnsSpot(w, u, r);
    }
  }

  // ----- the pigeonhole -----

  ghost predicate OwnedWithin(v: Side, owners: set<int>, r: int) {
    exists t :: t in owners && OwnsSpot(v, t, r)
  }

  /** If the first m spots all have owners in `owners`, there are at least m owners. */
  lemma {:induction false} Pigeonhole(v: Side, owners: set<int>, m: nat)
    requires forall r :: 0 <= r < m ==> OwnedWithin(v, owners, r)
    ensures m <= |owners|
  {
    if m > 0 {
      assert OwnedWithin(v, owners, m - 1);
      var t :| t in owners && OwnsSpot(v, t, m - 1);
      forall r | 0 <= r < m - 1
        ensures OwnedWithin(v, owners - {t}, r)
      {
        assert OwnedWithin(v, owners, r);
        var u :| u in owners && OwnsSpot(v, u, r);
        assert u in owners - {t};
      }
      Pigeonhole(v, owners - {t}, m - 1);
    }
  }

  /** A leftover chunk without a reservation always finds a free spot. */
  lemma SpotExists(v: Side, t: int, zone: int, total: int, reserved: seq<bool>)
    requires SpotLaw(v, zone, total, reserved) && total == |HeldSet(v)|
    requires HeldAt(v, t) && v.lanes[t].spot == -1
    ensures exists r :: 0 <= r < total && !reserved[r]
  {
    assert t in HeldSet(v);
    if forall r :: 0 <= r < total ==> reserved[r] {
      forall r | 0 <= r < total
        ensures OwnedWithin(v, HeldSet(v) - {t}, r)
      {
        assert reserved[r];
        var u :| OwnsSpot(v, u, r);
        assert u in HeldSet(v) - {t};
      }
      Pigeonhole(v, HeldSet(v) - {t}, total);
    }
  }

  /** Once every leftover chunk is in place or fully moved, everything below the middle zone is good. */
  lemma Settled(v: Side, zone: int, total: int, reserved: seq<bool>)
    requires Lawful(v) && SpotLaw(v, zone, total, reserved) && InPlaceReserved(v, zone)
    requires forall t :: HeldAt(v, t) && v.lanes[t].end < zone ==>
               v.lanes[t].spot >= 0 && v.lanes[t].moved == v.chunk
    ensures zone <= v.edge
    ensures forall i :: 0 <= i < zone ==> v.good[i]
  {
    if total > 0 {
      SpotsDescend(v.edge, v.chunk, -1, total - 1);
    }
    forall i | 0 <= i < zone
      ensures v.good[i]
    {
      if !v.good[i] {
        var t :| Dirty(v, t, i);
        var l := v.lanes[t];
        assert SpotOk(v, zone, total, reserved, l);
        SpotInZone(v.edge, v.chunk, zone, total, l.spot);
        assert false;
      }
    }
  }
}
