/** Who holds each packet: the pool, the engine's tasks, the input queue, the heap, the wavegen queue and the
    wavegen task, over any interleaving of their steps. */
module PacketFlow {
  import P = Packet
  import opened PriorityQueue

  const POOL_SIZE: nat := 80
  const INPUT_DEPTH: nat := 16
  const WAVEGEN_DEPTH: nat := 8

  /** Packets held outside the pool: being filled in by producers, queued for the scheduler, in its heap, in
      its hands, queued for the wavegen task, and in that task's hands. */
  datatype Flow = Flow(
    queue: Queue,
    producers: multiset<int>, input: seq<int>, taken: seq<int>, popped: seq<int>, output: seq<int>, sending: seq<int>)

  datatype Step =
    | Produce                                // packet_alloc by a producer
    | Fill(p: int, packet: P.Packet)         // a producer writes its packet
    | Send(p: int)                           // send_packet: queued, or freed if the queue stays full
    | Take                                   // the scheduler receives from its input queue
    | Sort                                   // and pushes the packet, or frees a duplicate
    | PopNext                                // the scheduler pops
    | Dispatch                               // and queues it for the wavegen task, or frees it
    | Receive                                // the wavegen task receives
    | Sent                                   // and frees the packet it has encoded

  function Count(s: seq<int>, p: int): nat { multiset(s)[p] }

  /** How many hold packet `p`. */
  function Holders(f: Flow, p: int): nat {
    Count(f.queue.h, p) + f.producers[p] + Count(f.input, p) + Count(f.taken, p) + Count(f.popped, p)
      + Count(f.output, p) + Count(f.sending, p)
  }

  predicate PoolIndex(f: Flow, p: int) { 0 <= p < |f.queue.pool| }

  predicate InUse(f: Flow, p: int) { PoolIndex(f, p) && f.queue.pool[p].inUse }

  /** Every packet in use has exactly one holder, every free one none. */
  ghost predicate Owned(f: Flow) { forall p :: Holders(f, p) == if InUse(f, p) then 1 else 0 }

  ghost predicate Inv(f: Flow) {
    && Sound(f.queue) && Owned(f) && |f.queue.pool| == POOL_SIZE
    && |f.taken| <= 1 && |f.popped| <= 1 && |f.sending| <= 1
  }

  /** A packet's holder may write it, but not give it away. */
  ghost predicate Enabled(f: Flow, s: Step) {
    match s
    case Fill(p, packet) => p in f.producers && packet.inUse
    case Send(p) => p in f.producers
    case Take => f.input != [] && f.taken == []
    case Sort => f.taken != []
    case PopNext => f.taken == [] && f.popped == []
    case Dispatch => f.popped != []
    case Receive => f.output != [] && f.sending == []
    case Sent => f.sending != []
    case Produce => true
  }

  ghost function FreeOne(f: Flow, p: int): Flow
    requires 0 <= p < |f.queue.pool|
  {
    f.(queue := f.queue.(pool := Freed(f.queue.pool, p)))
  }

  ghost function Next(f: Flow, s: Step): Flow
    requires Inv(f) && Enabled(f, s)
  {
    match s
    case Produce =>
      var c := FirstFree(f.queue.pool);
      if c == P.NULL then f
      else f.(queue := f.queue.(pool := f.queue.pool[c := P.RESET_PACKET]), producers := f.producers + multiset{c})
    case Fill(p, packet) => Held(f, p); InPool(f, p); f.(queue := f.queue.(pool := f.queue.pool[p := packet]))
    case Send(p) => HandOver(f.(producers := f.producers - multiset{p}), p)
    case Take => f.(taken := [f.input[0]], input := f.input[1..])
    case Sort => Sorted(f.(taken := []), f.taken[0])
    case PopNext =>
      var r := Pop(f.queue);
      f.(queue := r.q, popped := if r.out == P.NULL then [] else [r.out])
    case Dispatch => Output(f.(popped := []), f.popped[0])
    case Receive => f.(sending := [f.output[0]], output := f.output[1..])
    case Sent => Held(f, f.sending[0]); InPool(f, f.sending[0]); FreeOne(f.(sending := []), f.sending[0])
  }

  /** A packet that goes to the input queue, or back to the pool if the queue is full. */
  ghost function HandOver(f: Flow, p: int): Flow {
    if |f.input| < INPUT_DEPTH then f.(input := f.input + [p]) else if PoolIndex(f, p) then FreeOne(f, p) else f
  }

  ghost function Sorted(f: Flow, p: int): Flow
    requires Points(f.queue.h, f.queue.pool)
  {
    if !PoolIndex(f, p) then f
    else if Contains(f.queue, p) then FreeOne(f, p)
    else f.(queue := Push(f.queue, p))
  }

  ghost function Output(f: Flow, p: int): Flow {
    if |f.output| < WAVEGEN_DEPTH then f.(output := f.output + [p]) else if PoolIndex(f, p) then FreeOne(f, p) else f
  }

  lemma OfOne(x: int, p: int)
    ensures Count([x], p) == if x == p then 1 else 0
  {
  }

  lemma OfSum(s: seq<int>, t: seq<int>, p: int)
    ensures Count(s + t, p) == Count(s, p) + Count(t, p)
  {
  }

  lemma OfFirst(s: seq<int>, p: int)
    requires s != []
    ensures Count(s, p) == Count(s[1..], p) + if s[0] == p then 1 else 0
  {
    hide Count;
    assert s == [s[0]] + s[1..];
    OfSum([s[0]], s[1..], p);
    OfOne(s[0], p);
  }

  lemma OfLast(s: seq<int>, x: int, p: int)
    ensures Count(s + [x], p) == Count(s, p) + if x == p then 1 else 0
  {
    hide Count;
    OfSum(s, [x], p);
    OfOne(x, p);
  }

  lemma OfNone(p: int)
    ensures Count([], p) == 0
  {
  }

  lemma OfMember(s: seq<int>, p: int)
    ensures p in s <==> 0 < Count(s, p)
  {
  }

  /** Whoever holds a packet is its only holder. */
  lemma InPool(f: Flow, p: int)
    requires Inv(f) && 0 < Holders(f, p)
    ensures InUse(f, p) && Holders(f, p) == 1
  {
    hide Holders, Sound, InUse;
  }

  /** Freeing a packet taken out of its holder's hands. */
  lemma FreeKeeps(f: Flow, g: Flow, x: int)
    requires Owned(f) && InUse(f, x) && g.queue == f.queue
    requires forall p :: Holders(g, p) == Holders(f, p) - if p == x then 1 else 0
    ensures Owned(FreeOne(g, x))
  {
    forall p
      ensures Holders(FreeOne(g, x), p) == if InUse(FreeOne(g, x), p) then 1 else 0
    {
      hide Count;
      assert Holders(f, p) == if InUse(f, p) then 1 else 0;
    }
  }

  lemma FreeSound(f: Flow, p: int)
    requires Sound(f.queue) && PoolIndex(f, p)
    ensures Sound(FreeOne(f, p).queue)
  {
    SamePriorities(f.queue.h, f.queue.pool, Freed(f.queue.pool, p));
  }

  lemma FreeInv(f: Flow, g: Flow, x: int)
    requires Inv(f) && InUse(f, x) && g.queue == f.queue
    requires |g.taken| <= 1 && |g.popped| <= 1 && |g.sending| <= 1
    requires forall p :: Holders(g, p) == Holders(f, p) - if p == x then 1 else 0
    ensures Inv(FreeOne(g, x))
  {
    hide Holders, Sound, Owned;
    FreeKeeps(f, g, x);
    FreeSound(g, x);
  }

  /** Moving packets between holders. */
  lemma MoveKeeps(f: Flow, g: Flow)
    requires Inv(f) && g.queue == f.queue && |g.taken| <= 1 && |g.popped| <= 1 && |g.sending| <= 1
    requires forall p :: Holders(g, p) == Holders(f, p)
    ensures Inv(g)
  {
    hide Holders, Sound;
  }

  lemma StepProduce(f: Flow)
    requires Inv(f)
    ensures Inv(Next(f, Produce))
  {
    var c := FirstFree(f.queue.pool);
    if c != P.NULL {
      var g := Next(f, Produce);
      forall p
        ensures Holders(g, p) == if InUse(g, p) then 1 else 0
      {
        hide Count, Sound, FirstFree;
        assert Holders(f, p) == if InUse(f, p) then 1 else 0;
      }
      hide FirstFree;
      NotQueued(f, c);
      SamePriorities(f.queue.h, f.queue.pool, g.queue.pool);
    }
  }

  lemma NotQueued(f: Flow, p: int)
    requires Inv(f) && (Holders(f, p) == 0 || p in f.producers)
    ensures p !in f.queue.h
  {
    hide Count, Sound;
    OfMember(f.queue.h, p);
    assert Holders(f, p) == if InUse(f, p) then 1 else 0;
  }

  lemma Held(f: Flow, p: int)
    requires p in f.producers || (f.taken != [] && f.taken[0] == p) || (f.popped != [] && f.popped[0] == p)
             || (f.sending != [] && f.sending[0] == p) || p in f.queue.h
    ensures 0 < Holders(f, p)
  {
    hide Count;
    OfMember(f.taken, p);
    OfMember(f.popped, p);
    OfMember(f.sending, p);
    OfMember(f.queue.h, p);
  }

  lemma StepFill(f: Flow, x: int, packet: P.Packet)
    requires Inv(f) && Enabled(f, Fill(x, packet))
    ensures Inv(Next(f, Fill(x, packet)))
  {
    Held(f, x);
    InPool(f, x);
    var g := Next(f, Fill(x, packet));
    forall p
      ensures Holders(g, p) == if InUse(g, p) then 1 else 0
    {
      hide Count, Sound;
      assert Holders(f, p) == if InUse(f, p) then 1 else 0;
    }
    NotQueued(f, x);
    SamePriorities(f.queue.h, f.queue.pool, g.queue.pool);
  }

  lemma StepSend(f: Flow, x: int)
    requires Inv(f) && Enabled(f, Send(x))
    ensures Inv(Next(f, Send(x)))
  {
    hide Count, Sound, Owned, FreeOne;
    Held(f, x);
    InPool(f, x);
    var g := f.(producers := f.producers - multiset{x});
    forall p
      ensures Holders(g, p) == Holders(f, p) - if p == x then 1 else 0
    {
    }
    if |f.input| < INPUT_DEPTH {
      var after := g.(input := f.input + [x]);
      forall p
        ensures Holders(after, p) == Holders(f, p)
      {
        OfLast(f.input, x, p);
      }
      MoveKeeps(f, after);
    } else {
      FreeInv(f, g, x);
    }
  }

  lemma StepTake(f: Flow)
    requires Inv(f) && Enabled(f, Take)
    ensures Inv(Next(f, Take))
  {
    hide Count, Sound, Owned;
    forall p
      ensures Holders(Next(f, Take), p) == Holders(f, p)
    {
      OfFirst(f.input, p);
      OfOne(f.input[0], p);
      OfNone(p);
    }
    MoveKeeps(f, Next(f, Take));
  }

  lemma StepReceive(f: Flow)
    requires Inv(f) && Enabled(f, Receive)
    ensures Inv(Next(f, Receive))
  {
    hide Count, Sound, Owned;
    forall p
      ensures Holders(Next(f, Receive), p) == Holders(f, p)
    {
      OfFirst(f.output, p);
      OfOne(f.output[0], p);
      OfNone(p);
    }
    MoveKeeps(f, Next(f, Receive));
  }

  lemma OneFewer(s: seq<int>, p: int)
    requires |s| == 1
    ensures Count(s, p) == Count([], p) + if p == s[0] then 1 else 0
  {
    hide Count;
    OfFirst(s, p);
    assert s[1..] == [];
  }

  lemma StepDispatch(f: Flow)
    requires Inv(f) && Enabled(f, Dispatch)
    ensures Inv(Next(f, Dispatch))
  {
    hide Count, Sound, Owned, FreeOne;
    var x := f.popped[0];
    Held(f, x);
    InPool(f, x);
    var g := f.(popped := []);
    forall p
      ensures Holders(g, p) == Holders(f, p) - if p == x then 1 else 0
    {
      OneFewer(f.popped, p);
    }
    if |f.output| < WAVEGEN_DEPTH {
      var after := g.(output := f.output + [x]);
      forall p
        ensures Holders(after, p) == Holders(f, p)
      {
        OneFewer(f.popped, p);
        OfLast(f.output, x, p);
      }
      MoveKeeps(f, after);
    } else {
      FreeInv(f, g, x);
    }
  }

  lemma StepSent(f: Flow)
    requires Inv(f) && Enabled(f, Sent)
    ensures Inv(Next(f, Sent))
  {
    hide Count, Sound, Owned, FreeOne;
    var x := f.sending[0];
    Held(f, x);
    InPool(f, x);
    var g := f.(sending := []);
    forall p
      ensures Holders(g, p) == Holders(f, p) - if p == x then 1 else 0
    {
      OneFewer(f.sending, p);
    }
    FreeInv(f, g, x);
  }

  lemma StepSort(f: Flow)
    requires Inv(f) && Enabled(f, Sort)
    ensures Inv(Next(f, Sort))
  {
    hide Count, Ordered, Owned, FreeOne, Contains, Push;
    var x := f.taken[0];
    Held(f, x);
    InPool(f, x);
    var g := f.(taken := []);
    forall p
      ensures Holders(g, p) == Holders(f, p) - if p == x then 1 else 0
    {
      OneFewer(f.taken, p);
    }
    if Contains(f.queue, x) {
      FreeInv(f, g, x);
    } else if |f.queue.h| < CAPACITY {
      PushKeeps(f, x);
    } else {
      FullHeap(g, x);
      FreeInv(f, g, x);
    }
  }

  lemma FullHeap(f: Flow, x: int)
    requires CAPACITY <= |f.queue.h| && PoolIndex(f, x) && Points(f.queue.h, f.queue.pool)
    ensures f.(queue := Push(f.queue, x)) == FreeOne(f, x)
  {
  }

  lemma PushCounts(q: Queue, x: int, p: int)
    requires Sound(q) && 0 <= x < |q.pool| && |q.h| < CAPACITY
    ensures Count(Push(q, x).h, p) == Count(q.h, p) + if p == x then 1 else 0
  {
    hide Push, Ordered;
    PushSound(q, x);
  }

  lemma PushKeeps(f: Flow, x: int)
    requires Inv(f) && f.taken == [x] && InUse(f, x) && |f.queue.h| < CAPACITY
    ensures Inv(f.(taken := [], queue := Push(f.queue, x)))
  {
    hide Count, Ordered, Push;
    PushSound(f.queue, x);
    var g := f.(taken := [], queue := Push(f.queue, x));
    forall p
      ensures Holders(g, p) == if InUse(g, p) then 1 else 0
    {
      OneFewer(f.taken, p);
      PushCounts(f.queue, x, p);
      assert Holders(f, p) == if InUse(f, p) then 1 else 0;
    }
  }

  lemma StepPop(f: Flow)
    requires Inv(f) && Enabled(f, PopNext)
    ensures Inv(Next(f, PopNext))
  {
    if f.queue.h == [] {
      assert Next(f, PopNext) == f;
    } else if f.queue.pool[f.queue.h[0]].repeats <= 0 {
      PopLast(f);
    } else if FirstFree(f.queue.pool) == P.NULL {
      assert Next(f, PopNext) == f;
    } else {
      PopCopy(f);
    }
  }

  lemma TopCounts(q: Queue, p: int)
    requires Sound(q) && q.h != [] && q.pool[q.h[0]].repeats <= 0
    ensures Pop(q).out == q.h[0] && Pop(q).q.pool == q.pool && Sound(Pop(q).q)
    ensures Count(Pop(q).q.h, p) == Count(q.h, p) - if p == q.h[0] then 1 else 0
  {
    hide WithoutTop, Ordered;
    RemoveOrders(q.h, q.pool);
    assert q.h[0] in multiset(q.h);
  }

  /** Popping a packet's last copy takes the packet itself out of the heap. */
  lemma PopLast(f: Flow)
    requires Inv(f) && Enabled(f, PopNext) && f.queue.h != [] && f.queue.pool[f.queue.h[0]].repeats <= 0
    ensures Inv(Next(f, PopNext))
  {
    hide Count, Ordered, Pop;
    var g := Next(f, PopNext);
    Held(f, f.queue.h[0]);
    InPool(f, f.queue.h[0]);
    TopCounts(f.queue, 0);
    forall p
      ensures Holders(g, p) == if InUse(g, p) then 1 else 0
    {
      TopCounts(f.queue, p);
      OfOne(f.queue.h[0], p);
      OfNone(p);
      assert Holders(f, p) == if InUse(f, p) then 1 else 0;
    }
  }

  lemma CopyPool(q: Queue)
    requires Sound(q) && q.h != [] && 0 < q.pool[q.h[0]].repeats && FirstFree(q.pool) != P.NULL && q.pool[q.h[0]].inUse
    ensures var r, c := Pop(q), FirstFree(q.pool);
      && r.out == c && r.q.h == q.h && |r.q.pool| == |q.pool| && r.q.pool[c].inUse && !q.pool[c].inUse
      && (forall p :: 0 <= p < |q.pool| && p != c ==> r.q.pool[p].inUse == q.pool[p].inUse)
      && (forall p :: 0 <= p < |q.pool| && p != c ==> r.q.pool[p].priority == q.pool[p].priority)
  {
    hide FreeFrom, Ordered, WithoutTop;
  }

  /** Popping an earlier copy allocates a packet for it. */
  lemma PopCopy(f: Flow)
    requires Inv(f) && Enabled(f, PopNext) && f.queue.h != []
    requires 0 < f.queue.pool[f.queue.h[0]].repeats && FirstFree(f.queue.pool) != P.NULL
    ensures Inv(Next(f, PopNext))
  {
    hide Count, Ordered, Pop, FirstFree;
    var g, c := Next(f, PopNext), FirstFree(f.queue.pool);
    Held(f, f.queue.h[0]);
    InPool(f, f.queue.h[0]);
    CopyPool(f.queue);
    forall p
      ensures Holders(g, p) == if InUse(g, p) then 1 else 0
    {
      OfOne(c, p);
      OfNone(p);
      assert Holders(f, p) == if InUse(f, p) then 1 else 0;
    }
    NotQueued(f, c);
    SamePriorities(f.queue.h, f.queue.pool, g.queue.pool);
  }

  /** Every step of every task keeps the books: nothing leaks, is freed twice or is held twice. */
  lemma StepKeeps(f: Flow, s: Step)
    requires Inv(f) && Enabled(f, s)
    ensures Inv(Next(f, s))
  {
    hide Inv, Holders, Next, Enabled;
    match s
    case Produce => StepProduce(f);
    case Fill(p, packet) => StepFill(f, p, packet);
    case Send(p) => StepSend(f, p);
    case Take => StepTake(f);
    case Sort => StepSort(f);
    case PopNext => StepPop(f);
    case Dispatch => StepDispatch(f);
    case Receive => StepReceive(f);
    case Sent => StepSent(f);
  }

  // ---- runs ------------------------------------------------------------------------------

  function Idle(): Flow {
    Flow(Queue([], seq(POOL_SIZE, i => P.RESET_PACKET.(inUse := false))), multiset{}, [], [], [], [], [])
  }

  /** The system after the tasks have taken `steps` in that order; a step that is not enabled does nothing. */
  ghost function After(steps: seq<Step>): (f: Flow)
    ensures Inv(f)
  {
    if steps == [] then StartOwned(); Idle()
    else
      var f, s := After(steps[..|steps| - 1]), steps[|steps| - 1];
      if Enabled(f, s) then StepKeeps(f, s); Next(f, s) else f
  }

  lemma StartOwned()
    ensures Inv(Idle())
  {
    forall p
      ensures Holders(Idle(), p) == if InUse(Idle(), p) then 1 else 0
    {
    }
  }

  /** At every moment of every interleaving a packet in use has exactly one holder and a free packet none; so a
      packet leaves the pool's books only through the tasks' hands, and what a task frees nobody else holds. */
  lemma OneHolderEach(steps: seq<Step>, p: int)
    ensures var f := After(steps);
      Holders(f, p) == if 0 <= p < POOL_SIZE && f.queue.pool[p].inUse then 1 else 0
  {
    hide Holders, After;
    var f := After(steps);
  }

  // ---- what becomes of a packet --------------------------------------------------------------

  /** A packet waiting in the heap has the address and the bytes of packet `p`. */
  ghost predicate Waiting(f: Flow, p: int) {
    PoolIndex(f, p) && (exists i :: 0 <= i < |f.queue.h| && PoolIndex(f, f.queue.h[i])
                          && f.queue.pool[f.queue.h[i]].address == f.queue.pool[p].address
                          && f.queue.pool[f.queue.h[i]].data == f.queue.pool[p].data)
  }

  /** The scheduler queues a packet that is not waiting already, if the heap has room, and otherwise frees it, and does
      nothing else. */
  lemma SortExact(f: Flow)
    requires Inv(f) && Enabled(f, Sort)
    ensures var p, t := f.taken[0], Next(f, Sort);
      && t == f.(queue := t.queue, taken := [])
      && if !Waiting(f, p) && |f.queue.h| < 64 then
           multiset(t.queue.h) == multiset(f.queue.h) + multiset{p} && t.queue.pool == f.queue.pool
         else
           t.queue.h == f.queue.h && PoolIndex(f, p) && t.queue.pool == f.queue.pool[p := f.queue.pool[p].(inUse := false)]
  {
    var p := f.taken[0];
    Held(f, p);
    InPool(f, p);
    assert Waiting(f, p) <==> Contains(f.queue, p);
    PushSound(f.queue, p);
    hide Ordered, Owned, Holders, Pushed;
  }

  /** On its way from the producers to the wavegen task. */
  ghost predicate InPipeline(f: Flow, p: int) {
    p in f.input || p in f.taken || p in f.queue.h || p in f.popped || p in f.output || p in f.sending
  }

  datatype End = InputFull | Duplicate | HeapFull | OutputFull | HandedOn

  /** The step takes packet `p` out of the pipeline, or keeps it from getting in, for the reason given. */
  ghost predicate Ends(f: Flow, s: Step, p: int, end: End) {
    match end
    case InputFull => s == Send(p) && 16 <= |f.input|
    case Duplicate => s == Sort && f.taken == [p] && Waiting(f, p)
    case HeapFull => s == Sort && f.taken == [p] && |f.queue.h| == 64
    case OutputFull => s == Dispatch && f.popped == [p] && 8 <= |f.output|
    case HandedOn => s == Sent && f.sending == [p]
  }

  /** The packet's address, bytes and priority; its repeats are counted down where it lies. */
  ghost predicate SamePacket(f: Flow, g: Flow, p: int) {
    && PoolIndex(f, p) && PoolIndex(g, p)
    && g.queue.pool[p] == f.queue.pool[p].(repeats := g.queue.pool[p].repeats)
  }

  lemma PopMoves(f: Flow, p: int)
    requires Inv(f) && Enabled(f, PopNext) && InPipeline(f, p)
    ensures InPipeline(Next(f, PopNext), p) && SamePacket(f, Next(f, PopNext), p)
  {
    var q, g := f.queue, Next(f, PopNext);
    PipelineHolds(f, p);
    InPool(f, p);
    if q.h != [] && q.pool[q.h[0]].repeats <= 0 {
      TopCounts(q, p);
      OfMember(q.h, p);
      OfMember(g.queue.h, p);
      hide Inv, Pop, Count, WithoutTop;
    } else {
      assert InUse(f, p);
      hide Sound, Owned, Holders, Count, FreeFrom, WithoutTop;
    }
  }

  lemma PipelineHolds(f: Flow, p: int)
    requires InPipeline(f, p)
    ensures 0 < Holders(f, p) && (p in f.producers ==> 1 < Holders(f, p))
  {
    hide Count;
    OfMember(f.input, p);
    OfMember(f.taken, p);
    OfMember(f.queue.h, p);
    OfMember(f.popped, p);
    OfMember(f.output, p);
    OfMember(f.sending, p);
  }

  lemma OnlyHolder(f: Flow, p: int)
    requires Inv(f) && InPipeline(f, p)
    ensures InUse(f, p) && p !in f.producers
  {
    PipelineHolds(f, p);
    InPool(f, p);
    hide Inv, Holders;
  }

  lemma FillMoves(f: Flow, s: Step, p: int)
    requires Inv(f) && Enabled(f, s) && InPipeline(f, p) && (s.Produce? || s.Fill?)
    ensures InPipeline(Next(f, s), p) && SamePacket(f, Next(f, s), p)
  {
    OnlyHolder(f, p);
    if s.Fill? {
      assert s.p != p;
      Held(f, s.p);
      InPool(f, s.p);
    } else {
      assert FirstFree(f.queue.pool) != p;
    }
    hide Sound, Owned, Holders, FirstFree;
  }

  lemma SendMoves(f: Flow, x: int, p: int)
    requires Inv(f) && Enabled(f, Send(x)) && InPipeline(f, p)
    ensures InPipeline(Next(f, Send(x)), p) && SamePacket(f, Next(f, Send(x)), p)
  {
    OnlyHolder(f, p);
    hide Inv;
  }

  lemma TakeMoves(f: Flow, s: Step, p: int)
    requires Inv(f) && Enabled(f, s) && InPipeline(f, p) && (s.Take? || s.Receive?)
    ensures InPipeline(Next(f, s), p) && SamePacket(f, Next(f, s), p)
  {
    OnlyHolder(f, p);
    hide Sound, Owned;
    if s.Take? {
      assert f.input == [f.input[0]] + f.input[1..];
    } else {
      assert f.output == [f.output[0]] + f.output[1..];
    }
  }

  lemma SortMoves(f: Flow, p: int)
    requires Inv(f) && Enabled(f, Sort) && InPipeline(f, p)
    ensures (InPipeline(Next(f, Sort), p) && SamePacket(f, Next(f, Sort), p))
      || Ends(f, Sort, p, Duplicate) || Ends(f, Sort, p, HeapFull)
  {
    OnlyHolder(f, p);
    SortExact(f);
    var x, t := f.taken[0], Next(f, Sort);
    Held(f, x);
    InPool(f, x);
    assert |f.queue.h| <= 64 && f.taken == [x];
    if multiset(t.queue.h) == multiset(f.queue.h) + multiset{x} {
      assert p in f.queue.h ==> p in multiset(t.queue.h);
      assert x in multiset(t.queue.h);
    } else if x == p {
      hide Waiting;
    } else {
    }
    hide Inv, Next, Waiting;
  }

  lemma DispatchMoves(f: Flow, s: Step, p: int)
    requires Inv(f) && Enabled(f, s) && InPipeline(f, p) && (s.Dispatch? || s.Sent?)
    ensures (InPipeline(Next(f, s), p) && SamePacket(f, Next(f, s), p))
      || Ends(f, s, p, OutputFull) || Ends(f, s, p, HandedOn)
  {
    OnlyHolder(f, p);
    var x := if s.Dispatch? then f.popped[0] else f.sending[0];
    Held(f, x);
    InPool(f, x);
    OneEnd(f, s, x);
    hide Inv, Holders;
  }

  lemma OneEnd(f: Flow, s: Step, x: int)
    requires Inv(f) && Enabled(f, s) && (s.Dispatch? || s.Sent?) && x == if s.Dispatch? then f.popped[0] else f.sending[0]
    ensures s.Dispatch? ==> f.popped == [x]
    ensures s.Sent? ==> f.sending == [x]
  {
    hide Sound, Owned;
  }

  /** A packet in the pipeline stays there as its producer filled it in, or leaves it for a reason. */
  lemma StepMoves(f: Flow, s: Step, p: int)
    requires Inv(f) && Enabled(f, s) && InPipeline(f, p)
    ensures (InPipeline(Next(f, s), p) && SamePacket(f, Next(f, s), p)) || exists end :: Ends(f, s, p, end)
  {
    hide Inv, InPipeline, SamePacket, Next, Enabled, Ends;
    match s
    case Produce => FillMoves(f, s, p);
    case Fill(_, _) => FillMoves(f, s, p);
    case Send(x) => SendMoves(f, x, p);
    case Take => TakeMoves(f, s, p);
    case Sort => SortMoves(f, p);
    case PopNext => PopMoves(f, p);
    case Dispatch => DispatchMoves(f, s, p);
    case Receive => TakeMoves(f, s, p);
    case Sent => DispatchMoves(f, s, p);
  }

  lemma SendEnters(f: Flow, p: int)
    requires Inv(f) && Enabled(f, Send(p))
    ensures (InPipeline(Next(f, Send(p)), p) && SamePacket(f, Next(f, Send(p)), p)) || Ends(f, Send(p), p, InputFull)
  {
    Held(f, p);
    InPool(f, p);
    hide Sound, Owned, Holders;
  }

  lemma AfterMore(steps: seq<Step>, s: Step)
    ensures var f := After(steps); After(steps + [s]) == if Enabled(f, s) then Next(f, s) else f
  {
    hide Inv, Next, Enabled;
    assert (steps + [s])[..|steps|] == steps;
  }

  /** Step `m` of `more`, after `steps`, takes packet `p`, still as it was in `f`, out of the pipeline for the reason
      given. */
  ghost predicate EndedAt(f: Flow, steps: seq<Step>, more: seq<Step>, m: nat, p: int, end: End) {
    m < |more| &&
    var g := After(steps + more[..m]);
    InPipeline(g, p) && SamePacket(f, g, p) && Enabled(g, more[m]) && Ends(g, more[m], p, end)
  }

  ghost predicate HasEnded(f: Flow, steps: seq<Step>, more: seq<Step>, p: int) {
    exists m: nat, end :: EndedAt(f, steps, more, m, p, end)
  }

  lemma EndedStays(f: Flow, steps: seq<Step>, more: seq<Step>, s: Step, p: int)
    requires HasEnded(f, steps, more, p)
    ensures HasEnded(f, steps, more + [s], p)
  {
    hide After, Ends, InPipeline, SamePacket;
    var m: nat, end :| EndedAt(f, steps, more, m, p, end);
    assert (more + [s])[..m] == more[..m];
    assert EndedAt(f, steps, more + [s], m, p, end);
  }

  lemma EndedNow(f: Flow, steps: seq<Step>, more: seq<Step>, s: Step, p: int)
    requires var g := After(steps + more); InPipeline(g, p) && SamePacket(f, g, p) && Enabled(g, s) && exists end :: Ends(g, s, p, end)
    ensures HasEnded(f, steps, more + [s], p)
  {
    hide After, Ends, InPipeline, SamePacket;
    var end :| Ends(After(steps + more), s, p, end);
    assert (more + [s])[..|more|] == more;
    assert EndedAt(f, steps, more + [s], |more|, p, end);
  }

  /** Over any run: a packet that a producer sends is turned back because the input queue is full, or at every later
      moment it is in the pipeline, its address, bytes and priority as sent, until a step takes it out as a duplicate
      of a waiting packet, because the heap or the output queue is full, or because the wavegen task is done with it. */
  lemma {:induction false} SentStays(steps: seq<Step>, p: int, more: seq<Step>)
    requires Enabled(After(steps), Send(p)) && |After(steps).input| < 16
    ensures var f, g := After(steps), After(steps + [Send(p)] + more);
      (InPipeline(g, p) && SamePacket(f, g, p)) || HasEnded(f, steps + [Send(p)], more, p)
    decreases |more|
  {
    hide After, Inv, InPipeline, SamePacket, Next, Enabled, HasEnded;
    var f, start := After(steps), steps + [Send(p)];
    if more == [] {
      assert start + more == start;
      AfterMore(steps, Send(p));
      SendEnters(f, p);
    } else {
      var front, s := more[..|more| - 1], more[|more| - 1];
      assert more == front + [s] && start + more == start + front + [s];
      SentStays(steps, p, front);
      AfterMore(start + front, s);
      var g := After(start + front);
      if HasEnded(f, start, front, p) {
        EndedStays(f, start, front, s, p);
      } else if Enabled(g, s) {
        StepMoves(g, s, p);
        if exists end :: Ends(g, s, p, end) {
          EndedNow(f, start, front, s, p);
        } else {
          SameTwice(f, g, Next(g, s), p);
        }
      }
    }
  }

  lemma SameTwice(f: Flow, g: Flow, h: Flow, p: int)
    requires SamePacket(f, g, p) && SamePacket(g, h, p)
    ensures SamePacket(f, h, p)
  {
  }

  // ---- the order of the output ------------------------------------------------------------------

  /** What a step puts into the wavegen task's queue, and what it has that task receive. */
  ghost function QueuedBy(f: Flow, s: Step): seq<int> {
    if s.Dispatch? && f.popped != [] && |f.output| < 8 then [f.popped[0]] else []
  }

  ghost function ReceivedBy(f: Flow, s: Step): seq<int>
    requires Inv(f)
  {
    if s.Receive? && Enabled(f, s) then Next(f, s).sending else []
  }

  /** The packets that went into the queue, in order. */
  ghost function Queued(steps: seq<Step>): seq<int>
    decreases |steps|
  {
    if steps == [] then []
    else
      var front, s := steps[..|steps| - 1], steps[|steps| - 1];
      Queued(front) + QueuedBy(After(front), s)
  }

  /** The packets the wavegen task has received, in order. */
  ghost function Received(steps: seq<Step>): seq<int>
    decreases |steps|
  {
    if steps == [] then []
    else
      var front, s := steps[..|steps| - 1], steps[|steps| - 1];
      Received(front) + ReceivedBy(After(front), s)
  }

  lemma OutputStep(f: Flow, s: Step)
    requires Inv(f)
    ensures f.output + QueuedBy(f, s) == ReceivedBy(f, s) + if Enabled(f, s) then Next(f, s).output else f.output
  {
    hide Sound, Owned, Holders, FreeFrom;
    if s.Receive? && Enabled(f, s) {
      assert f.output == [f.output[0]] + f.output[1..];
    }
  }

  /** The wavegen task receives the packets queued for it in order, each once. */
  lemma {:induction false} OutputInOrder(steps: seq<Step>)
    ensures Queued(steps) == Received(steps) + After(steps).output
    decreases |steps|
  {
    hide Inv, Next, Enabled, QueuedBy, ReceivedBy;
    if steps != [] {
      var front, s := steps[..|steps| - 1], steps[|steps| - 1];
      OutputInOrder(front);
      var f := After(front);
      OutputStep(f, s);
      Shift(Received(front), f.output, QueuedBy(f, s), ReceivedBy(f, s), After(steps).output);
    }
  }

  lemma Shift(r: seq<int>, o: seq<int>, x: seq<int>, y: seq<int>, o2: seq<int>)
    requires o + x == y + o2
    ensures (r + o) + x == (r + y) + o2
  {
    assert (r + o) + x == r + (o + x);
    assert (r + y) + o2 == r + (y + o2);
  }
}
