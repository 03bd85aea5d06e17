/** The packet scheduler: an array max-heap of pool packets that counts repeats in place. */
module PriorityQueue {
  import P = Packet

  const CAPACITY: nat := 64

  /** The packet pool; a pointer into it is an index. */
  type Pool = seq<P.Packet>

  predicate Points(h: seq<int>, pool: Pool) { forall i :: 0 <= i < |h| ==> 0 <= h[i] < |pool| }

  function Pri(h: seq<int>, pool: Pool, i: nat): nat
    requires i < |h| && Points(h, pool)
  {
    pool[h[i]].priority
  }

  function Parent(i: nat): nat
    requires 0 < i
  {
    (i - 1) / 2
  }

  function Swap(h: seq<int>, i: nat, j: nat): seq<int>
    requires i < |h| && j < |h|
  {
    h[i := h[j]][j := h[i]]
  }

  /** Moving entry `i` up until its parent's priority is no lower. */
  function SiftUp(h: seq<int>, pool: Pool, i: nat): (r: seq<int>)
    requires i < |h| && Points(h, pool)
    ensures |r| == |h| && Points(r, pool)
    decreases i
  {
    if i == 0 || Pri(h, pool, i) <= Pri(h, pool, Parent(i)) then h
    else SiftUp(Swap(h, i, Parent(i)), pool, Parent(i))
  }

  /** The entry of highest priority among `i` and its children, the first of equals. */
  function Largest(h: seq<int>, pool: Pool, i: nat): (k: nat)
    requires i < |h| && Points(h, pool)
    ensures i <= k < |h| && (k == i || k == 2 * i + 1 || k == 2 * i + 2)
  {
    var l := if 2 * i + 1 < |h| && Pri(h, pool, 2 * i + 1) > Pri(h, pool, i) then 2 * i + 1 else i;
    if 2 * i + 2 < |h| && Pri(h, pool, 2 * i + 2) > Pri(h, pool, l) then 2 * i + 2 else l
  }

  /** Moving entry `i` down until no child's priority is higher. */
  function SiftDown(h: seq<int>, pool: Pool, i: nat): (r: seq<int>)
    requires i < |h| && Points(h, pool)
    ensures |r| == |h| && Points(r, pool)
    decreases |h| - i
  {
    var k := Largest(h, pool, i);
    if k == i then h else SiftDown(Swap(h, i, k), pool, k)
  }

  function Pushed(h: seq<int>, pool: Pool, p: int): seq<int>
    requires Points(h, pool) && 0 <= p < |pool|
  {
    SiftUp(h + [p], pool, |h|)
  }

  /** The last entry takes the top's place. */
  function WithoutTop(h: seq<int>, pool: Pool): (r: seq<int>)
    requires h != [] && Points(h, pool)
    ensures |r| == |h| - 1 && Points(r, pool)
  {
    var n := |h| - 1;
    if n == 0 then [] else SiftDown(h[..n][0 := h[n]], pool, 0)
  }

  // ---- heap order -----------------------------------------------------------------

  ghost predicate Ordered(h: seq<int>, pool: Pool)
    requires Points(h, pool)
  {
    forall i :: 1 <= i < |h| ==> Pri(h, pool, i) <= Pri(h, pool, Parent(i))
  }

  /** Heap order but for entry `k` against its parent; its children fit below that parent. */
  ghost predicate OrderedUpTo(h: seq<int>, pool: Pool, k: nat)
    requires k < |h| && Points(h, pool)
  {
    && (forall i :: 1 <= i < |h| && i != k ==> Pri(h, pool, i) <= Pri(h, pool, Parent(i)))
    && (forall i :: 1 <= i < |h| && k == Parent(i) && 0 < k ==> Pri(h, pool, i) <= Pri(h, pool, Parent(k)))
  }

  lemma {:induction false} SiftUpOrders(h: seq<int>, pool: Pool, k: nat)
    requires k < |h| && Points(h, pool) && OrderedUpTo(h, pool, k)
    ensures Ordered(SiftUp(h, pool, k), pool) && multiset(SiftUp(h, pool, k)) == multiset(h)
    decreases k
  {
    if k != 0 && Pri(h, pool, k) > Pri(h, pool, Parent(k)) {
      hide OrderedUpTo, Ordered, Pri;
      SwapKeeps(h, k, Parent(k));
      SwapUp(h, pool, k);
      SiftUpOrders(Swap(h, k, Parent(k)), pool, Parent(k));
    }
  }

  lemma SwapKeeps(h: seq<int>, i: nat, j: nat)
    requires i < |h| && j < |h|
    ensures multiset(Swap(h, i, j)) == multiset(h)
  {
  }

  lemma SwapUp(h: seq<int>, pool: Pool, k: nat)
    requires 0 < k < |h| && Points(h, pool) && OrderedUpTo(h, pool, k) && Pri(h, pool, k) > Pri(h, pool, Parent(k))
    ensures OrderedUpTo(Swap(h, k, Parent(k)), pool, Parent(k))
  {
    var p := Parent(k);
    var h2 := Swap(h, k, p);
    forall i | 1 <= i < |h| && i != p
      ensures Pri(h2, pool, i) <= Pri(h2, pool, Parent(i))
    {
    }
  }

  /** Heap order but for entry `k` against its children; they fit below its parent. */
  ghost predicate OrderedFrom(h: seq<int>, pool: Pool, k: nat)
    requires k < |h| && Points(h, pool)
  {
    && (forall i :: 1 <= i < |h| && Parent(i) != k ==> Pri(h, pool, i) <= Pri(h, pool, Parent(i)))
    && (forall i :: 1 <= i < |h| && Parent(i) == k && 0 < k ==> Pri(h, pool, i) <= Pri(h, pool, Parent(k)))
  }

  lemma {:induction false} SiftDownOrders(h: seq<int>, pool: Pool, k: nat)
    requires k < |h| && Points(h, pool) && OrderedFrom(h, pool, k)
    ensures Ordered(SiftDown(h, pool, k), pool) && multiset(SiftDown(h, pool, k)) == multiset(h)
    decreases |h| - k
  {
    hide OrderedFrom, Ordered, Largest, Pri;
    var c := Largest(h, pool, k);
    if c != k {
      SwapKeeps(h, k, c);
      SwapDown(h, pool, k);
      SiftDownOrders(Swap(h, k, c), pool, c);
    } else {
      DownDone(h, pool, k);
    }
  }

  lemma DownDone(h: seq<int>, pool: Pool, k: nat)
    requires k < |h| && Points(h, pool) && OrderedFrom(h, pool, k) && Largest(h, pool, k) == k
    ensures Ordered(h, pool)
  {
    forall i | 1 <= i < |h|
      ensures Pri(h, pool, i) <= Pri(h, pool, Parent(i))
    {
      assert Parent(i) == k ==> i == 2 * k + 1 || i == 2 * k + 2;
    }
  }

  lemma SwapDown(h: seq<int>, pool: Pool, k: nat)
    requires k < |h| && Points(h, pool) && OrderedFrom(h, pool, k) && Largest(h, pool, k) != k
    ensures OrderedFrom(Swap(h, k, Largest(h, pool, k)), pool, Largest(h, pool, k))
  {
    var c := Largest(h, pool, k);
    var h2 := Swap(h, k, c);
    assert Parent(c) == k;
    forall i | 1 <= i < |h| && Parent(i) != c
      ensures Pri(h2, pool, i) <= Pri(h2, pool, Parent(i))
    {
      if Parent(i) == k {
        assert i == 2 * k + 1 || i == 2 * k + 2;
      }
    }
  }

  /** The top has the highest priority. */
  lemma {:induction false} TopIsHighest(h: seq<int>, pool: Pool, i: nat)
    requires i < |h| && Points(h, pool) && Ordered(h, pool)
    ensures Pri(h, pool, i) <= Pri(h, pool, 0)
    decreases i
  {
    if i != 0 {
      TopIsHighest(h, pool, Parent(i));
    }
  }

  /** A push keeps the order and adds exactly the packet pushed. */
  lemma PushOrders(h: seq<int>, pool: Pool, p: int)
    requires Points(h, pool) && 0 <= p < |pool| && Ordered(h, pool)
    ensures Ordered(Pushed(h, pool, p), pool) && multiset(Pushed(h, pool, p)) == multiset(h) + multiset{p}
  {
    var h2 := h + [p];
    forall i | 1 <= i < |h2| && i != |h|
      ensures Pri(h2, pool, i) <= Pri(h2, pool, Parent(i))
    {
      assert Pri(h, pool, i) <= Pri(h, pool, Parent(i));
    }
    SiftUpOrders(h2, pool, |h|);
  }

  /** Taking the top out keeps the order and the other packets. */
  lemma RemoveOrders(h: seq<int>, pool: Pool)
    requires h != [] && Points(h, pool) && Ordered(h, pool)
    ensures Ordered(WithoutTop(h, pool), pool) && multiset(h) == multiset(WithoutTop(h, pool)) + multiset{h[0]}
  {
    var n := |h| - 1;
    if n != 0 {
      LastOnTop(h);
      hide Parent, SiftDown;
      FromTheTop(h, pool);
      SiftDownOrders(h[..n][0 := h[n]], pool, 0);
    } else {
      assert h == [h[0]];
    }
  }

  lemma LastOnTop(h: seq<int>)
    requires |h| > 1
    ensures var n := |h| - 1; multiset(h) == multiset(h[..n][0 := h[n]]) + multiset{h[0]}
  {
    var n := |h| - 1;
    assert h == [h[0]] + h[1..n] + [h[n]] && h[..n][0 := h[n]] == [h[n]] + h[1..n];
  }

  lemma FromTheTop(h: seq<int>, pool: Pool)
    requires |h| > 1 && Points(h, pool) && Ordered(h, pool)
    ensures var h2 := h[..|h| - 1][0 := h[|h| - 1]]; Points(h2, pool) && OrderedFrom(h2, pool, 0)
  {
    var h2 := h[..|h| - 1][0 := h[|h| - 1]];
    forall i | 1 <= i < |h2| && Parent(i) != 0
      ensures Pri(h2, pool, i) <= Pri(h2, pool, Parent(i))
    {
      assert Pri(h, pool, i) <= Pri(h, pool, Parent(i));
    }
  }

  // ---- repeats ----------------------------------------------------------------------

  /** Copies of a packet still to come out. */
  function Left(p: P.Packet): nat { 1 + if 0 < p.repeats then p.repeats else 0 }

  function LeftAll(h: seq<int>, pool: Pool): nat
    requires Points(h, pool)
  {
    if h == [] then 0 else LeftAll(h[..|h| - 1], pool) + Left(pool[h[|h| - 1]])
  }

  lemma {:induction false} LeftUpdate(h: seq<int>, pool: Pool, i: nat, x: int)
    requires i < |h| && Points(h, pool) && 0 <= x < |pool|
    ensures LeftAll(h[i := x], pool) + Left(pool[h[i]]) == LeftAll(h, pool) + Left(pool[x])
  {
    var n := |h| - 1;
    if i == n {
      assert h[i := x][..n] == h[..n];
    } else {
      assert h[i := x][..n] == h[..n][i := x];
      LeftUpdate(h[..n], pool, i, x);
    }
  }

  lemma LeftSwap(h: seq<int>, pool: Pool, i: nat, j: nat)
    requires i < |h| && j < |h| && Points(h, pool)
    ensures LeftAll(Swap(h, i, j), pool) == LeftAll(h, pool)
  {
    hide LeftAll, Left;
    LeftUpdate(h, pool, i, h[j]);
    LeftUpdate(h[i := h[j]], pool, j, h[i]);
  }

  lemma {:induction false} LeftSiftUp(h: seq<int>, pool: Pool, i: nat)
    requires i < |h| && Points(h, pool)
    ensures LeftAll(SiftUp(h, pool, i), pool) == LeftAll(h, pool)
    decreases i
  {
    hide LeftAll, Left;
    if i != 0 && Pri(h, pool, i) > Pri(h, pool, Parent(i)) {
      LeftSwap(h, pool, i, Parent(i));
      LeftSiftUp(Swap(h, i, Parent(i)), pool, Parent(i));
    }
  }

  lemma {:induction false} LeftSiftDown(h: seq<int>, pool: Pool, i: nat)
    requires i < |h| && Points(h, pool)
    ensures LeftAll(SiftDown(h, pool, i), pool) == LeftAll(h, pool)
    decreases |h| - i
  {
    hide LeftAll, Left, Largest;
    var k := Largest(h, pool, i);
    if k != i {
      LeftSwap(h, pool, i, k);
      LeftSiftDown(Swap(h, i, k), pool, k);
    }
  }

  /** What a pop leaves behind: one repeat less, or the top gone. */
  datatype Popped = Popped(h: seq<int>, pool: Pool)

  function AfterPop(h: seq<int>, pool: Pool): (r: Popped)
    requires h != [] && Points(h, pool)
    ensures Points(r.h, r.pool)
  {
    var t := pool[h[0]];
    if 0 < t.repeats then Popped(h, pool[h[0] := t.(repeats := t.repeats - 1)]) else Popped(WithoutTop(h, pool), pool)
  }

  lemma {:induction false} LeftElsewhere(h: seq<int>, pool: Pool, x: int, p: P.Packet)
    requires Points(h, pool) && 0 <= x < |pool| && x !in h
    ensures LeftAll(h, pool[x := p]) == LeftAll(h, pool)
  {
    if h != [] {
      LeftElsewhere(h[..|h| - 1], pool, x, p);
    }
  }

  ghost predicate Distinct(h: seq<int>) { forall x :: multiset(h)[x] <= 1 }

  lemma TopOnce(h: seq<int>)
    requires h != [] && Distinct(h)
    ensures h[0] !in h[1..]
  {
    var x := h[0];
    assert h == [x] + h[1..];
    assert multiset(h) == multiset([x]) + multiset(h[1..]);
    assert multiset(h)[x] <= 1;
    assert multiset(h[1..])[x] == 0;
  }

  /** Every successful pop uses up exactly one of the copies still to come out. */
  lemma PopUsesOne(h: seq<int>, pool: Pool)
    requires h != [] && Points(h, pool) && Distinct(h)
    ensures var r := AfterPop(h, pool); LeftAll(r.h, r.pool) == LeftAll(h, pool) - 1
  {
    hide SiftDown, LeftAll;
    var t := pool[h[0]];
    if 0 < t.repeats {
      var t2 := t.(repeats := t.repeats - 1);
      LeftFront(h, pool);
      LeftFront(h, pool[h[0] := t2]);
      TopOnce(h);
      LeftElsewhere(h[1..], pool, h[0], t2);
    } else {
      LeftWithoutTop(h, pool);
    }
  }

  lemma LeftWithoutTop(h: seq<int>, pool: Pool)
    requires h != [] && Points(h, pool)
    ensures LeftAll(WithoutTop(h, pool), pool) + Left(pool[h[0]]) == LeftAll(h, pool)
  {
    hide SiftDown, Left;
    if |h| > 1 {
      var n := |h| - 1;
      LeftUpdate(h[..n], pool, 0, h[n]);
      LeftSiftDown(h[..n][0 := h[n]], pool, 0);
    }
  }

  lemma {:induction false} LeftFront(h: seq<int>, pool: Pool)
    requires h != [] && Points(h, pool)
    ensures LeftAll(h, pool) == Left(pool[h[0]]) + LeftAll(h[1..], pool)
  {
    hide Left;
    if |h| == 1 {
      assert h[..0] == [] && h[1..] == [];
    } else {
      LeftFront(h[..|h| - 1], pool);
      assert h[..|h| - 1][1..] == h[1..][..|h| - 2];
    }
  }

  /** Pushes of no higher priority leave the top where it is. */
  lemma {:induction false} TopStays(h: seq<int>, pool: Pool, i: nat)
    requires 0 < i < |h| && Points(h, pool) && Pri(h, pool, i) <= Pri(h, pool, 0)
    ensures SiftUp(h, pool, i)[0] == h[0]
    decreases i
  {
    if Pri(h, pool, i) > Pri(h, pool, Parent(i)) {
      TopStays(Swap(h, i, Parent(i)), pool, Parent(i));
    }
  }

  // ---- the queue's operations -----------------------------------------------------------

  /** The heap and the pool its entries point into. */
  datatype Queue = Queue(h: seq<int>, pool: Pool)

  ghost predicate Sound(q: Queue) {
    Points(q.h, q.pool) && Ordered(q.h, q.pool) && |q.h| <= CAPACITY
  }

  function FirstFree(pool: Pool): (r: int)
    ensures -1 <= r < |pool|
    ensures r == P.NULL ==> forall i :: 0 <= i < |pool| ==> pool[i].inUse
    ensures r != P.NULL ==> !pool[r].inUse && forall i :: 0 <= i < r ==> pool[i].inUse
  {
    FreeFrom(pool, 0)
  }

  function FreeFrom(pool: Pool, k: nat): (r: int)
    requires k <= |pool|
    ensures r == P.NULL || k <= r < |pool|
    ensures r == P.NULL ==> forall i :: k <= i < |pool| ==> pool[i].inUse
    ensures r != P.NULL ==> !pool[r].inUse && forall i :: k <= i < r ==> pool[i].inUse
    decreases |pool| - k
  {
    if k == |pool| then P.NULL else if !pool[k].inUse then k else FreeFrom(pool, k + 1)
  }

  function Freed(pool: Pool, p: int): Pool
    requires 0 <= p < |pool|
  {
    pool[p := pool[p].(inUse := false)]
  }

  /** A full heap frees what is pushed. */
  function Push(q: Queue, p: int): Queue
    requires Points(q.h, q.pool) && 0 <= p < |q.pool|
  {
    if CAPACITY <= |q.h| then q.(pool := Freed(q.pool, p)) else q.(h := Pushed(q.h, q.pool, p))
  }

  /** One copy of a packet for the output, in pool slot `c`. */
  function Copied(pool: Pool, top: int, c: int): Pool
    requires 0 <= top < |pool| && 0 <= c < |pool|
  {
    var t := pool[top];
    pool[top := t.(repeats := t.repeats - 1)][c := t.(repeats := 0, inUse := true)]
  }

  datatype PopResult = PopResult(q: Queue, out: int)

  /** A packet with repeats left gives out a copy, if the pool has one; any other leaves the heap. */
  function Pop(q: Queue): PopResult
    requires Points(q.h, q.pool)
  {
    if q.h == [] then PopResult(q, P.NULL)
    else
      var top := q.h[0];
      var c := FirstFree(q.pool);
      if q.pool[top].repeats <= 0 then PopResult(q.(h := WithoutTop(q.h, q.pool)), top)
      else if c == P.NULL then PopResult(q, P.NULL)
      else PopResult(q.(pool := Copied(q.pool, top, c)), c)
  }

  /** The same instruction to the same address. */
  predicate SameCommand(a: P.Packet, b: P.Packet) { a.address == b.address && a.data == b.data }

  /** A duplicate of a waiting packet need not be queued. */
  predicate Contains(q: Queue, p: int)
    requires Points(q.h, q.pool) && 0 <= p < |q.pool|
  {
    exists i :: 0 <= i < |q.h| && SameCommand(q.pool[q.h[i]], q.pool[p])
  }

  lemma SamePriorities(h: seq<int>, a: Pool, b: Pool)
    requires Points(h, a) && |a| == |b| && Ordered(h, a)
    requires forall i :: 0 <= i < |h| ==> b[h[i]].priority == a[h[i]].priority
    ensures Ordered(h, b)
  {
    forall i | 1 <= i < |h|
      ensures Pri(h, b, i) <= Pri(h, b, Parent(i))
    {
      assert Pri(h, a, i) <= Pri(h, a, Parent(i));
    }
  }

  lemma PushSound(q: Queue, p: int)
    requires Sound(q) && 0 <= p < |q.pool|
    ensures Sound(Push(q, p))
    ensures |q.h| < CAPACITY ==> multiset(Push(q, p).h) == multiset(q.h) + multiset{p} && Push(q, p).pool == q.pool
  {
    if |q.h| < CAPACITY {
      PushOrders(q.h, q.pool, p);
    } else {
      SamePriorities(q.h, q.pool, Freed(q.pool, p));
    }
  }

  /** Every queued packet is in use. */
  ghost predicate AllInUse(q: Queue)
    requires Points(q.h, q.pool)
  {
    forall i :: 0 <= i < |q.h| ==> q.pool[q.h[i]].inUse
  }

  /** A pop fails only on an empty heap, or if a copy is needed and every packet is in use. A successful one yields a
      packet of the highest priority, the queue keeps its order, and exactly one of the copies still to come out is
      used up. */
  lemma PopSound(q: Queue)
    requires Sound(q) && Distinct(q.h) && AllInUse(q)
    ensures var r := Pop(q);
      && Sound(r.q) && (r.out == P.NULL ==> r.q == q)
      && (r.out == P.NULL <==> q.h == [] || (0 < q.pool[q.h[0]].repeats && forall i :: 0 <= i < |q.pool| ==> q.pool[i].inUse))
      && (r.out != P.NULL ==> (forall i :: 0 <= i < |q.h| ==> Pri(q.h, q.pool, i) <= q.pool[q.h[0]].priority))
      && (r.out != P.NULL ==> r.q.pool[r.out] == q.pool[q.h[0]].(repeats := r.q.pool[r.out].repeats))
      && (r.out != P.NULL ==> LeftAll(r.q.h, r.q.pool) == LeftAll(q.h, q.pool) - 1)
  {
    hide SiftDown, LeftAll;
    var r := Pop(q);
    if r.out != P.NULL {
      var top := q.h[0];
      forall i | 0 <= i < |q.h|
        ensures Pri(q.h, q.pool, i) <= q.pool[top].priority
      {
        TopIsHighest(q.h, q.pool, i);
      }
      PopUsesOne(q.h, q.pool);
      if 0 < q.pool[top].repeats {
        SamePriorities(q.h, q.pool, r.q.pool);
        LeftElsewhere(q.h, AfterPop(q.h, q.pool).pool, r.out, r.q.pool[r.out]);
      } else {
        RemoveOrders(q.h, q.pool);
      }
    }
  }

  // ---- repeats over runs ------------------------------------------------------------------

  /** What happens to the queue: a pop, a push of a packet filled in elsewhere, or changes to pool packets
      that are not queued. */
  datatype Event = Popping | Pushing(p: int, packet: P.Packet) | Elsewhere(pool: Pool)

  /** Outside the queue's own operations, queued packets are left alone; pushed ones are in use and new. */
  ghost predicate Legal(q: Queue, e: Event)
    requires Points(q.h, q.pool)
  {
    match e
    case Popping => true
    case Pushing(p, packet) => 0 <= p < |q.pool| && p !in q.h && packet.inUse
    case Elsewhere(pool) => |pool| == |q.pool| && forall i :: 0 <= i < |q.h| ==> pool[q.h[i]] == q.pool[q.h[i]]
  }

  function Apply(q: Queue, e: Event): Queue
    requires Points(q.h, q.pool) && (e.Pushing? ==> 0 <= e.p < |q.pool|)
  {
    match e
    case Popping => Pop(q).q
    case Pushing(p, packet) => Push(q.(pool := q.pool[p := packet]), p)
    case Elsewhere(pool) => q.(pool := pool)
  }

  ghost predicate Whole(q: Queue) { Sound(q) && Distinct(q.h) && AllInUse(q) }

  lemma ApplyWhole(q: Queue, e: Event)
    requires Whole(q) && Legal(q, e)
    ensures Whole(Apply(q, e))
  {
    match e
    case Popping => PopWhole(q);
    case Pushing(p, packet) => PushWhole(q, p, packet);
    case Elsewhere(pool) => SamePriorities(q.h, q.pool, pool);
  }

  lemma PushWhole(q: Queue, p: int, packet: P.Packet)
    requires Whole(q) && Legal(q, Pushing(p, packet))
    ensures Whole(Apply(q, Pushing(p, packet)))
  {
    hide SiftUp;
    var q2 := q.(pool := q.pool[p := packet]);
    SamePriorities(q.h, q.pool, q2.pool);
    hide Ordered;
    PushSound(q2, p);
    if |q.h| < CAPACITY {
      hide Pushed;
      NewMember(q.h, p);
      MembersInUse(Push(q2, p), q2.h + [p]);
    }
  }

  lemma NewMember(h: seq<int>, p: int)
    requires Distinct(h) && p !in h
    ensures Distinct(h + [p]) && multiset(h + [p]) == multiset(h) + multiset{p}
  {
    forall x
      ensures multiset(h + [p])[x] <= 1
    {
      assert multiset(h + [p]) == multiset(h) + multiset{p};
      assert p !in multiset(h);
    }
  }

  lemma MembersInUse(q: Queue, h: seq<int>)
    requires Points(q.h, q.pool) && Points(h, q.pool) && multiset(q.h) <= multiset(h)
    requires forall i :: 0 <= i < |h| ==> q.pool[h[i]].inUse
    ensures AllInUse(q)
  {
    forall i | 0 <= i < |q.h|
      ensures q.pool[q.h[i]].inUse
    {
      assert q.h[i] in multiset(q.h);
      assert q.h[i] in multiset(h);
    }
  }

  lemma PopWhole(q: Queue)
    requires Whole(q)
    ensures Whole(Pop(q).q)
  {
    hide SiftDown, LeftAll, Left, WithoutTop, Ordered;
    PopSound(q);
    if q.h != [] && q.pool[q.h[0]].repeats <= 0 {
      RemoveOrders(q.h, q.pool);
      MembersInUse(Pop(q).q, q.h);
    }
  }

  /** The packets that come out over a run of events, in order. */
  ghost function Emitted(q: Queue, events: seq<Event>): seq<P.Packet>
    requires Whole(q)
    decreases |events|
  {
    if events == [] || !Legal(q, events[0]) then []
    else
      ApplyWhole(q, events[0]);
      var rest := Emitted(Apply(q, events[0]), events[1..]);
      if events[0].Popping? && Pop(q).out != P.NULL then [Pop(q).q.pool[Pop(q).out]] + rest else rest
  }

  /** No push outranks the top. */
  ghost predicate Outranked(events: seq<Event>, priority: nat) {
    forall i :: 0 <= i < |events| ==> events[i].Pushing? ==> events[i].packet.priority <= priority
  }

  /** Once a packet is on top, its copies come out back to back: unless a packet of strictly higher priority
      is pushed, all of the next successful pops, as many as it has copies left, are its own. */
  lemma {:induction false} CopiesTogether(q: Queue, events: seq<Event>, i: nat)
    requires Whole(q) && q.h != [] && Outranked(events, q.pool[q.h[0]].priority)
    requires i < |Emitted(q, events)| && i < Left(q.pool[q.h[0]])
    ensures SameCommand(Emitted(q, events)[i], q.pool[q.h[0]])
    decreases |events|
  {
    var e := events[0];
    ApplyWhole(q, e);
    var q2 := Apply(q, e);
    var top := q.h[0];
    StaysOnTop(q, e);
    hide Whole, Legal, Apply, Pop;
    if e.Popping? && Pop(q).out != P.NULL {
      if i > 0 {
        CopiesTogether(q2, events[1..], i - 1);
      }
    } else {
      CopiesTogether(q2, events[1..], i);
    }
  }

  /** The pop gives out the top itself, leaving no copy of it. */
  ghost predicate LastCopy(q: Queue, e: Event)
    requires Points(q.h, q.pool) && q.h != []
  {
    e.Popping? && Pop(q).out != P.NULL && q.pool[q.h[0]].repeats <= 0
  }

  lemma StaysOnTop(q: Queue, e: Event)
    requires Whole(q) && Legal(q, e) && q.h != [] && (e.Pushing? ==> e.packet.priority <= q.pool[q.h[0]].priority)
    ensures e.Popping? && Pop(q).out != P.NULL ==> SameCommand(Pop(q).q.pool[Pop(q).out], q.pool[q.h[0]])
    ensures var q2, top := Apply(q, e), q.h[0];
      LastCopy(q, e) || (q2.h != [] && q2.h[0] == top
        && q2.pool[top] == q.pool[top].(repeats := q.pool[top].repeats - if e.Popping? && Pop(q).out != P.NULL then 1 else 0))
  {
    if e.Pushing? && |q.h| < CAPACITY {
      TopStays(q.h + [e.p], q.pool[e.p := e.packet], |q.h|);
    }
  }

  // ---- the queue in its array -----------------------------------------------------------

  class PQueue {
    const items: array<int>
    const pool: P.PacketPool
    var count: nat

    ghost predicate Valid()
      reads this, items, pool, pool.slots
    {
      items.Length == CAPACITY && count <= CAPACITY && Points(items[..count], pool.slots[..])
    }

    ghost function View(): Queue
      requires Valid()
      reads this, items, pool, pool.slots
    {
      Queue(items[..count], pool.slots[..])
    }

    constructor (pool: P.PacketPool)
      ensures Valid() && count == 0 && this.pool == pool && fresh(items)
    {
      items := new int[CAPACITY](_ => P.NULL);
      this.pool := pool;
      count := 0;
    }

    /** sift_up, over the first `n` items. */
    method SiftUpItem(idx: nat, n: nat)
      requires idx < n <= items.Length && Points(items[..n], pool.slots[..])
      modifies items
      ensures items[..n] == SiftUp(old(items[..n]), pool.slots[..], idx) && items[n..] == old(items[n..])
    {
      var i: nat := idx;
      ghost var goal := SiftUp(items[..n], pool.slots[..], i);
      while 0 < i
        invariant i < n && Points(items[..n], pool.slots[..]) && items[n..] == old(items[n..])
        invariant SiftUp(items[..n], pool.slots[..], i) == goal
      {
        var parent: nat := (i - 1) / 2;
        if pool.slots[items[i]].priority <= pool.slots[items[parent]].priority {
          break;
        }
        ghost var before := items[..n];
        items[i], items[parent] := items[parent], items[i];
        assert items[..n] == Swap(before, i, parent);
        i := parent;
      }
    }

    method LargestItem(i: nat) returns (largest: nat)
      requires Valid() && i < count
      ensures largest == Largest(items[..count], pool.slots[..], i)
    {
      largest := i;
      var left := 2 * i + 1;
      var right := 2 * i + 2;
      if left < count && pool.slots[items[left]].priority > pool.slots[items[largest]].priority {
        largest := left;
      }
      if right < count && pool.slots[items[right]].priority > pool.slots[items[largest]].priority {
        largest := right;
      }
    }

    /** sift_down, over the queue's items. */
    method SiftDownItem(idx: nat)
      requires Valid() && idx < count
      modifies items
      ensures Valid() && items[..count] == SiftDown(old(items[..count]), pool.slots[..], idx)
    {
      hide Largest;
      var i := idx;
      ghost var goal := SiftDown(items[..count], pool.slots[..], i);
      while true
        invariant i < count && Valid()
        invariant SiftDown(items[..count], pool.slots[..], i) == goal
        decreases count - i
      {
        var largest := LargestItem(i);
        if largest == i {
          break;
        }
        ghost var before := items[..count];
        items[i], items[largest] := items[largest], items[i];
        assert items[..count] == Swap(before, i, largest);
        i := largest;
      }
    }

    method RemoveTop()
      requires Valid() && 0 < count
      modifies this`count, items
      ensures Valid() && View() == old(View()).(h := WithoutTop(old(View()).h, pool.slots[..]))
    {
      ghost var before := items[..count];
      count := count - 1;
      items[0] := items[count];
      items[count] := P.NULL;
      if 0 < count {
        assert items[..count] == before[..count][0 := before[count]];
        SiftDownItem(0);
      }
    }

    /** pqueue_push. */
    method PushPacket(p: int)
      requires Valid() && 0 <= p < pool.slots.Length
      modifies this`count, items, pool.slots
      ensures Valid() && View() == Push(old(View()), p)
    {
      if CAPACITY <= count {
        pool.Free(p);
        return;
      }
      ghost var before := items[..count];
      items[count] := p;
      assert items[..count + 1] == before + [p];
      SiftUpItem(count, count + 1);
      count := count + 1;
    }

    /** pqueue_pop: the caller owns what it returns. */
    method PopPacket() returns (out: int)
      requires Valid() && AllInUse(View())
      modifies this`count, items, pool.slots
      ensures Valid() && View() == Pop(old(View())).q && out == Pop(old(View())).out
    {
      if count == 0 {
        return P.NULL;
      }
      var top := items[0];
      ghost var before := pool.slots[..];
      if 0 < pool.slots[top].repeats {
        var copy := pool.Alloc();
        FreeIsFirst(before, copy);
        if copy == P.NULL {
          return P.NULL;
        }
        pool.slots[top] := pool.slots[top].(repeats := pool.slots[top].repeats - 1);
        var t := pool.slots[top];
        pool.slots[copy] := P.Packet(t.data, t.address, t.priority, 0, pool.slots[copy].inUse);
        assert pool.slots[..] == Copied(before, top, copy);
        return copy;
      }
      RemoveTop();
      return top;
    }

    /** pqueue_contains. */
    method ContainsPacket(p: int) returns (found: bool)
      requires Valid() && 0 <= p < pool.slots.Length
      ensures found == Contains(View(), p)
    {
      var pkt := pool.slots[p];
      for i := 0 to count
        invariant forall k :: 0 <= k < i ==> !SameCommand(pool.slots[items[k]], pkt)
      {
        var q := pool.slots[items[i]];
        if q.address == pkt.address && |q.data| == |pkt.data| && q.data == pkt.data {
          assert SameCommand(View().pool[View().h[i]], pkt);
          return true;
        }
      }
      return false;
    }
  }

  lemma FreeIsFirst(pool: Pool, c: int)
    requires c == P.NULL ==> forall i :: 0 <= i < |pool| ==> pool[i].inUse
    requires c != P.NULL ==> 0 <= c < |pool| && !pool[c].inUse && forall i :: 0 <= i < c ==> pool[i].inUse
    ensures FirstFree(pool) == c
  {
  }
}
