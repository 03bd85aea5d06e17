/** Alias allocation: every node's state machine, driven from one tick loop and sharing one try-lock. */
module Alias {
  import opened AliasSequence

  const WAIT_TICKS: nat := 2
  const MAX_RETRIES: nat := 10
  const MAX_NODES: nat := 24

  datatype Stage = Idle | Cid | Wait | Conflict | Confirmed

  /** The two counters are 8 bits wide. */
  datatype Node = Node(id: NodeId, alias: Alias, stage: Stage, waitTicks: nat, retries: nat)

  datatype Frame =
    | CheckId(sequence: nat, field: bv12, alias: Alias)
    | Reserve(alias: Alias)
    | MapDefinition(alias: Alias, id: NodeId)
    | InitComplete(alias: Alias, id: NodeId)

  datatype Net = Net(nodes: seq<Node>, locked: bool, sent: seq<Frame>)

  // ---- one node ---------------------------------------------------------------------------

  function Add8(x: nat): nat { (x + 1) % 0x100 }

  function WithAlias(n: Node): Node { if n.alias == NONE then n.(alias := Seed(n.id)) else n }

  /** A node after its tick; `free` says whether the lock could be taken. */
  function NodeTick(n: Node, free: bool): Node {
    match n.stage
    case Idle => if free then WithAlias(n).(stage := Cid, waitTicks := 0) else WithAlias(n)
    case Cid => n.(stage := Wait, waitTicks := 0)
    case Wait =>
      if WAIT_TICKS <= Add8(n.waitTicks) then n.(stage := Confirmed, waitTicks := Add8(n.waitTicks))
      else n.(waitTicks := Add8(n.waitTicks))
    case Conflict =>
      if GivesUp(n) then n.(retries := Add8(n.retries))
      else n.(retries := Add8(n.retries), alias := Next(n.alias), stage := Idle)
    case Confirmed => n
  }

  /** This tick's conflict exhausts the node's retries. */
  predicate GivesUp(n: Node) { n.stage == Conflict && MAX_RETRIES <= Add8(n.retries) }

  predicate Claims(n: Node) { n.stage == Wait && WAIT_TICKS <= Add8(n.waitTicks) }

  function LockAfter(n: Node, locked: bool): bool {
    if n.stage == Idle then true else if Claims(n) || n.stage == Conflict then false else locked
  }

  function CheckFrames(n: Node): seq<Frame> {
    [CheckId(7, n.id.a, n.alias), CheckId(6, n.id.b, n.alias), CheckId(5, n.id.c, n.alias), CheckId(4, n.id.d, n.alias)]
  }

  function TickFrames(n: Node, free: bool): seq<Frame> {
    if n.stage == Idle && free then CheckFrames(WithAlias(n))
    else if Claims(n) then [Reserve(n.alias), MapDefinition(n.alias, n.id), InitComplete(n.alias, n.id)]
    else []
  }

  function NodeHears(n: Node, a: Alias): Node {
    if n.alias == a && (n.stage == Cid || n.stage == Wait) then n.(stage := Conflict) else n
  }

  // ---- the network ------------------------------------------------------------------------

  function Ticked(net: Net, i: nat): Net
    requires i < |net.nodes|
  {
    var n := net.nodes[i];
    Net(net.nodes[i := NodeTick(n, !net.locked)], LockAfter(n, net.locked), net.sent + TickFrames(n, !net.locked))
  }

  /** The tick loop after its first `k` nodes. */
  function TickedTo(net: Net, k: nat): (r: Net)
    requires k <= |net.nodes|
    ensures |r.nodes| == |net.nodes|
  {
    if k == 0 then net else Ticked(TickedTo(net, k - 1), k - 1)
  }

  function AllTicked(net: Net): Net { TickedTo(net, |net.nodes|) }

  /** A control frame from source alias `a` reaches every node. */
  function HeardTo(net: Net, a: Alias, k: nat): (r: Net)
    requires k <= |net.nodes|
    ensures |r.nodes| == |net.nodes| && r.locked == net.locked
    ensures forall i :: 0 <= i < |net.nodes| ==> r.nodes[i] == if i < k then NodeHears(net.nodes[i], a) else net.nodes[i]
  {
    if k == 0 then net
    else
      var before := HeardTo(net, a, k - 1);
      var n := before.nodes[k - 1];
      before.(nodes := before.nodes[k - 1 := NodeHears(n, a)],
              sent := before.sent + if n.alias == a && n.stage == Confirmed then [Reserve(a)] else [])
  }

  function Heard(net: Net, a: Alias): Net { HeardTo(net, a, |net.nodes|) }

  /** Ticking a confirmed node would do nothing; the loop skips it. */
  lemma ConfirmedStays(net: Net, i: nat)
    requires i < |net.nodes| && net.nodes[i].stage == Confirmed
    ensures Ticked(net, i) == net
  {
  }

  // ---- mutual exclusion -------------------------------------------------------------------

  predicate Busy(n: Node) { n.stage == Cid || n.stage == Wait || n.stage == Conflict }

  /** The lock is held exactly when a node is allocating, and never by two. */
  ghost predicate Exclusive(net: Net) {
    && (net.locked <==> exists i :: 0 <= i < |net.nodes| && Busy(net.nodes[i]))
    && (forall i, j :: 0 <= i < |net.nodes| && 0 <= j < |net.nodes| && Busy(net.nodes[i]) && Busy(net.nodes[j]) ==> i == j)
  }

  lemma NodeStep(n: Node, locked: bool)
    requires Busy(n) ==> locked
    ensures var m := NodeTick(n, !locked);
      && (Busy(n) ==> (Busy(m) <==> LockAfter(n, locked)) || GivesUp(n))
      && (!Busy(n) ==> (Busy(m) <==> !locked && n.stage == Idle) && (LockAfter(n, locked) <==> locked || Busy(m)))
      && (GivesUp(n) ==> Busy(m) && !LockAfter(n, locked))
  {
  }

  /** One node's tick keeps mutual exclusion exactly when it does not give up: a node that gives up stays in
      conflict but lets the lock go. */
  lemma TickExact(net: Net, i: nat)
    requires Exclusive(net) && i < |net.nodes|
    ensures Exclusive(Ticked(net, i)) <==> !GivesUp(net.nodes[i])
  {
    hide NodeTick, LockAfter, GivesUp, Busy, TickFrames;
    var n := net.nodes[i];
    var t := Ticked(net, i);
    NodeStep(n, net.locked);
    if GivesUp(n) {
      assert Busy(t.nodes[i]);
    } else if Busy(n) {
      assert forall j :: 0 <= j < |net.nodes| && j != i ==> !Busy(net.nodes[j]) && t.nodes[j] == net.nodes[j];
      assert Busy(t.nodes[i]) <==> t.locked;
    } else if net.locked {
      var j :| 0 <= j < |net.nodes| && Busy(net.nodes[j]);
      assert Busy(t.nodes[j]);
    } else if Busy(t.nodes[i]) {
      assert t.locked;
    }
  }

  lemma {:induction false} Untouched(net: Net, k: nat, i: nat)
    requires k <= i < |net.nodes|
    ensures TickedTo(net, k).nodes[i] == net.nodes[i]
    decreases k
  {
    hide NodeTick, LockAfter, TickFrames;
    if k != 0 {
      Untouched(net, k - 1, i);
    }
  }

  /** What the loop does to node `i` is its own tick, with the lock as the nodes before it have left it. */
  lemma {:induction false} LoopAt(net: Net, k: nat, i: nat)
    requires i < k <= |net.nodes|
    ensures TickedTo(net, k).nodes[i] == NodeTick(net.nodes[i], !TickedTo(net, i).locked)
    decreases k
  {
    hide NodeTick, LockAfter, TickFrames;
    if i == k - 1 {
      Untouched(net, i, i);
    } else {
      LoopAt(net, k - 1, i);
    }
  }

  /** A node has given up and the lock says otherwise. */
  ghost predicate Broken(net: Net, i: nat) {
    && i < |net.nodes| && net.nodes[i].stage == Conflict
    && (net.locked ==> exists j :: 0 <= j < |net.nodes| && j != i && Busy(net.nodes[j]))
  }

  lemma BrokenStays(net: Net, i: nat, k: nat)
    requires Broken(net, i) && k < |net.nodes| && k != i
    ensures Broken(Ticked(net, k), i)
  {
    hide TickFrames, GivesUp;
    var t := Ticked(net, k);
    if t.locked {
      if Busy(t.nodes[k]) {
        assert k != i && Busy(t.nodes[k]);
      } else {
        var j :| 0 <= j < |net.nodes| && j != i && Busy(net.nodes[j]);
        assert j != k;
        assert Busy(t.nodes[j]);
      }
    }
  }

  lemma {:induction false} LoopExact(net: Net, k: nat)
    requires Exclusive(net) && k <= |net.nodes|
    ensures (forall i :: 0 <= i < k ==> !GivesUp(net.nodes[i])) ==> Exclusive(TickedTo(net, k))
    ensures forall i: nat :: i < k && GivesUp(net.nodes[i]) ==> exists m: nat :: m < k && Broken(TickedTo(net, k), m)
    decreases k
  {
    hide Exclusive, Broken, GivesUp, Ticked;
    if k != 0 {
      LoopExact(net, k - 1);
      var before, last := TickedTo(net, k - 1), k - 1;
      Untouched(net, last, last);
      if forall i :: 0 <= i < last ==> !GivesUp(net.nodes[i]) {
        TickExact(before, last);
        if GivesUp(net.nodes[last]) {
          GivingUpBreaks(before, last);
          assert Broken(TickedTo(net, k), last);
        }
      } else {
        var i: nat :| i < last && GivesUp(net.nodes[i]);
        var m: nat :| m < last && Broken(before, m);
        BrokenStays(before, m, last);
        assert Broken(TickedTo(net, k), m);
      }
    }
  }

  lemma GivingUpBreaks(net: Net, i: nat)
    requires i < |net.nodes| && GivesUp(net.nodes[i])
    ensures Broken(Ticked(net, i), i)
  {
  }

  lemma BrokenIsNot(net: Net, i: nat)
    requires Broken(net, i)
    ensures !Exclusive(net)
  {
    assert Busy(net.nodes[i]);
  }

  /** A turn of the tick loop keeps mutual exclusion exactly when no node gives up in it. */
  lemma LoopKeeps(net: Net)
    requires Exclusive(net)
    ensures Exclusive(AllTicked(net)) <==> forall i :: 0 <= i < |net.nodes| ==> !GivesUp(net.nodes[i])
  {
    hide Exclusive, Broken, GivesUp, TickedTo;
    LoopExact(net, |net.nodes|);
    if !forall i :: 0 <= i < |net.nodes| ==> !GivesUp(net.nodes[i]) {
      var i: nat :| i < |net.nodes| && GivesUp(net.nodes[i]);
      var m: nat :| Broken(AllTicked(net), m);
      BrokenIsNot(AllTicked(net), m);
    }
  }

  lemma HeardKeeps(net: Net, a: Alias)
    requires Exclusive(net)
    ensures Exclusive(Heard(net, a))
  {
    var t := Heard(net, a);
    assert forall i :: 0 <= i < |net.nodes| ==> (Busy(t.nodes[i]) <==> Busy(net.nodes[i]));
  }

  // ---- progress ---------------------------------------------------------------------------

  /** The stages a node has before it. */
  function ToGo(n: Node): nat {
    match n.stage
    case Conflict => 5
    case Idle => 4
    case Cid => 3
    case Wait => if n.waitTicks == 0 then 2 else 1
    case Confirmed => 0
  }

  function Measure(nodes: seq<Node>): nat {
    if nodes == [] then 0 else Measure(nodes[..|nodes| - 1]) + ToGo(nodes[|nodes| - 1])
  }

  lemma {:induction false} MeasureUpdate(nodes: seq<Node>, i: nat, n: Node)
    requires i < |nodes|
    ensures Measure(nodes[i := n]) == Measure(nodes) - ToGo(nodes[i]) + ToGo(n)
    decreases |nodes|
  {
    hide ToGo;
    var last := |nodes| - 1;
    if i == last {
      assert nodes[i := n][..last] == nodes[..last];
    } else {
      assert nodes[i := n][..last] == nodes[..last][i := n];
      MeasureUpdate(nodes[..last], i, n);
    }
  }

  /** The wait counter never runs past its limit. */
  predicate Sane(n: Node) { n.stage == Wait ==> n.waitTicks < WAIT_TICKS }

  lemma NodeProgress(n: Node, free: bool)
    requires Sane(n) && !GivesUp(n)
    ensures Sane(NodeTick(n, free)) && !GivesUp(NodeTick(n, free))
    ensures ToGo(NodeTick(n, free)) <= ToGo(n)
    ensures n.stage == Confirmed || (n.stage == Idle && !free) || ToGo(NodeTick(n, free)) < ToGo(n)
  {
  }

  ghost predicate AllSane(net: Net) { forall i :: 0 <= i < |net.nodes| ==> Sane(net.nodes[i]) && !GivesUp(net.nodes[i]) }

  /** A free lock, or a holder still to come in this turn of the loop: something will move. */
  ghost predicate Moves(net: Net, k: nat) {
    (!net.locked && exists i :: k <= i < |net.nodes| && net.nodes[i].stage == Idle)
    || exists i :: k <= i < |net.nodes| && Busy(net.nodes[i])
  }

  lemma TickMeasure(net: Net, k: nat)
    requires k < |net.nodes| && AllSane(net)
    ensures var t := Ticked(net, k);
      && AllSane(t) && Measure(t.nodes) <= Measure(net.nodes)
      && (Moves(net, k) ==> Moves(t, k + 1) || Measure(t.nodes) < Measure(net.nodes))
  {
    hide NodeTick, ToGo, Measure, GivesUp, TickFrames, LockAfter;
    var n, t := net.nodes[k], Ticked(net, k);
    NodeProgress(n, !net.locked);
    MeasureUpdate(net.nodes, k, NodeTick(n, !net.locked));
    if Moves(net, k) && !(Measure(t.nodes) < Measure(net.nodes)) {
      StillMoves(net, k);
    }
  }

  lemma StillMoves(net: Net, k: nat)
    requires k < |net.nodes| && Moves(net, k)
    requires net.nodes[k].stage == Confirmed || (net.nodes[k].stage == Idle && net.locked)
    ensures Moves(Ticked(net, k), k + 1)
  {
    hide TickFrames;
    var t := Ticked(net, k);
    assert t.locked == net.locked;
    if !net.locked && exists i :: k <= i < |net.nodes| && net.nodes[i].stage == Idle {
      var i :| k <= i < |net.nodes| && net.nodes[i].stage == Idle;
      assert i != k;
      assert t.nodes[i].stage == Idle;
    } else {
      var i :| k <= i < |net.nodes| && Busy(net.nodes[i]);
      assert i != k;
      assert Busy(t.nodes[i]);
    }
  }

  lemma {:induction false} LoopMeasure(net: Net, k: nat)
    requires k <= |net.nodes| && AllSane(net)
    ensures var t := TickedTo(net, k);
      && AllSane(t) && Measure(t.nodes) <= Measure(net.nodes)
      && (Moves(net, 0) ==> Moves(t, k) || Measure(t.nodes) < Measure(net.nodes))
    decreases k
  {
    hide AllSane, Measure, Moves, Ticked;
    if k != 0 {
      LoopMeasure(net, k - 1);
      TickMeasure(TickedTo(net, k - 1), k - 1);
    }
  }

  lemma SomethingMoves(net: Net)
    requires Exclusive(net) && exists i :: 0 <= i < |net.nodes| && net.nodes[i].stage != Confirmed
    ensures Moves(net, 0) && !Moves(net, |net.nodes|)
  {
    var i :| 0 <= i < |net.nodes| && net.nodes[i].stage != Confirmed;
    if !net.locked {
      assert !Busy(net.nodes[i]);
      assert net.nodes[i].stage == Idle;
    }
  }

  /** With no collisions, each turn of the loop brings the network closer to all nodes confirmed. */
  lemma TurnProgresses(net: Net)
    requires Exclusive(net) && AllSane(net)
    ensures Exclusive(AllTicked(net)) && AllSane(AllTicked(net))
    ensures Measure(AllTicked(net).nodes) <= Measure(net.nodes)
    ensures (exists i :: 0 <= i < |net.nodes| && net.nodes[i].stage != Confirmed) ==> Measure(AllTicked(net).nodes) < Measure(net.nodes)
  {
    assert forall i :: 0 <= i < |net.nodes| ==> !GivesUp(net.nodes[i]);
    hide Exclusive, AllSane, Measure, TickedTo, GivesUp;
    LoopKeeps(net);
    LoopMeasure(net, |net.nodes|);
    if exists i :: 0 <= i < |net.nodes| && net.nodes[i].stage != Confirmed {
      SomethingMoves(net);
      NoneLeft(AllTicked(net), |net.nodes|);
    }
  }

  lemma NoneLeft(net: Net, k: nat)
    requires |net.nodes| <= k
    ensures !Moves(net, k)
  {
  }

  function Turns(net: Net, n: nat): Net { if n == 0 then net else AllTicked(Turns(net, n - 1)) }

  lemma {:induction false} MeasureZero(nodes: seq<Node>, i: nat)
    requires Measure(nodes) == 0 && i < |nodes|
    ensures nodes[i].stage == Confirmed
    decreases |nodes|
  {
    if i != |nodes| - 1 {
      MeasureZero(nodes[..|nodes| - 1], i);
    }
  }

  ghost predicate Done(net: Net) { forall i :: 0 <= i < |net.nodes| ==> net.nodes[i].stage == Confirmed }

  /** Once collisions stop, every node is confirmed after at most as many turns as there are stages to go. */
  lemma {:induction false} AllConfirmed(net: Net, n: nat)
    requires Exclusive(net) && AllSane(net)
    ensures var t := Turns(net, n);
      Exclusive(t) && AllSane(t) && (Measure(t.nodes) + n <= Measure(net.nodes) || Done(t))
    ensures Measure(net.nodes) <= n ==> Done(Turns(net, n))
    decreases n
  {
    hide Exclusive, AllSane, Measure, TickedTo, Done;
    if n != 0 {
      AllConfirmed(net, n - 1);
      TurnProgresses(Turns(net, n - 1));
      if Done(Turns(net, n - 1)) {
        StayDone(Turns(net, n - 1));
      } else {
        NotDone(Turns(net, n - 1));
      }
    }
    if Measure(Turns(net, n).nodes) == 0 {
      NothingToGo(Turns(net, n));
    }
  }

  lemma NotDone(net: Net)
    requires !Done(net)
    ensures exists i :: 0 <= i < |net.nodes| && net.nodes[i].stage != Confirmed
  {
  }

  lemma NothingToGo(net: Net)
    requires Measure(net.nodes) == 0
    ensures Done(net)
  {
    forall i | 0 <= i < |net.nodes|
      ensures net.nodes[i].stage == Confirmed
    {
      MeasureZero(net.nodes, i);
    }
  }

  lemma StayDone(net: Net)
    requires Done(net)
    ensures Done(AllTicked(net))
  {
    hide TickedTo;
    forall i | 0 <= i < |net.nodes|
      ensures AllTicked(net).nodes[i].stage == Confirmed
    {
      LoopAt(net, |net.nodes|, i);
    }
  }

  // ---- runs -------------------------------------------------------------------------------

  /** What reaches the one task that runs the allocator. */
  datatype Event = Turn | Collision(alias: Alias) | Register(id: NodeId)

  function Registered(net: Net, id: NodeId): Net {
    if MAX_NODES <= |net.nodes| then net else net.(nodes := net.nodes + [Node(id, NONE, Idle, 0, 0)])
  }

  function Apply(net: Net, e: Event): Net {
    match e
    case Turn => AllTicked(net)
    case Collision(a) => Heard(net, a)
    case Register(id) => Registered(net, id)
  }

  function After(events: seq<Event>): Net {
    if events == [] then Net([], false, []) else Apply(After(events[..|events| - 1]), events[|events| - 1])
  }

  lemma AfterOne(events: seq<Event>, e: Event)
    ensures After(events + [e]) == Apply(After(events), e)
  {
    assert (events + [e])[..|events|] == events;
  }

  /** No node ever gives up. */
  ghost predicate Calm(events: seq<Event>)
    decreases |events|
  {
    events == [] || (Calm(events[..|events| - 1])
      && (events[|events| - 1].Turn? ==> NoneGivesUp(After(events[..|events| - 1]))))
  }

  ghost predicate NoneGivesUp(net: Net) { forall i :: 0 <= i < |net.nodes| ==> !GivesUp(net.nodes[i]) }

  ghost predicate AlwaysExclusive(events: seq<Event>)
    decreases |events|
  {
    Exclusive(After(events)) && (events == [] || AlwaysExclusive(events[..|events| - 1]))
  }

  lemma RegisterKeeps(net: Net, id: NodeId)
    requires Exclusive(net)
    ensures Exclusive(Registered(net, id))
  {
    var t := Registered(net, id);
    assert forall i :: 0 <= i < |net.nodes| ==> t.nodes[i] == net.nodes[i];
    assert |t.nodes| > |net.nodes| ==> !Busy(t.nodes[|net.nodes|]);
    if net.locked {
      var i :| 0 <= i < |net.nodes| && Busy(net.nodes[i]);
      assert Busy(t.nodes[i]);
    }
  }

  /** Over any run, from the first node on, the lock is held exactly while one node is allocating, and never
      by two, if and only if no node exhausts its retries. */
  lemma {:induction false} MutualExclusion(events: seq<Event>)
    ensures AlwaysExclusive(events) <==> Calm(events)
    decreases |events|
  {
    hide Exclusive, GivesUp, AllTicked, Heard, Registered;
    if events == [] {
      NoNodes();
    } else {
      var front, e := events[..|events| - 1], events[|events| - 1];
      MutualExclusion(front);
      var net := After(front);
      if Exclusive(net) {
        match e
        case Turn => LoopKeeps(net);
        case Collision(a) => HeardKeeps(net, a);
        case Register(id) => RegisterKeeps(net, id);
      } else if front != [] {
        assert !AlwaysExclusive(front);
      } else {
        NoNodes();
      }
    }
  }

  lemma NoNodes()
    ensures Exclusive(Net([], false, []))
  {
  }

  // ---- a run in which a node gives up -------------------------------------------------------

  /** Node `id` registers, and `k` times over takes the lock, has its candidate taken and moves on. */
  function Rounds(id: NodeId, k: nat): seq<Event> {
    if k == 0 then [Register(id)] else Rounds(id, k - 1) + [Turn, Collision(Candidate(Seed(id), k - 1)), Turn]
  }

  /** A tenth collision, and two more nodes register before the next two turns. */
  function GiveUp(id0: NodeId, id1: NodeId, id2: NodeId): seq<Event> {
    Rounds(id0, 9) + [Turn] + [Collision(Candidate(Seed(id0), 9))] + [Register(id1)] + [Register(id2)] + [Turn] + [Turn]
  }

  lemma OneTurn(events: seq<Event>, n: Node)
    requires After(events).nodes == [n]
    ensures var t := After(events + [Turn]);
      t.nodes == [NodeTick(n, !After(events).locked)] && t.locked == LockAfter(n, After(events).locked)
  {
    hide NodeTick, LockAfter, TickFrames;
    var net := After(events);
    AfterOne(events, Turn);
    assert TickedTo(net, 1) == Ticked(net, 0);
  }

  lemma OneCollision(events: seq<Event>, n: Node, a: Alias)
    requires After(events).nodes == [n]
    ensures var t := After(events + [Collision(a)]);
      t.nodes == [NodeHears(n, a)] && t.locked == After(events).locked
  {
    hide NodeHears;
    AfterOne(events, Collision(a));
  }

  /** A free lock is taken for the next candidate, and a collision on it makes a conflict. */
  lemma Collides(events: seq<Event>, id: NodeId, alias: Alias, k: nat)
    requires After(events).nodes == [Node(id, alias, Idle, 0, k)] && !After(events).locked
    requires alias == if k == 0 then NONE else Candidate(Seed(id), k)
    ensures var t := After(events + [Turn] + [Collision(Candidate(Seed(id), k))]);
      t.nodes == [Node(id, Candidate(Seed(id), k), Conflict, 0, k)] && t.locked
  {
    hide After, Seed, Next;
    CandidateIsSteps(Seed(id), k);
    OneTurn(events, Node(id, alias, Idle, 0, k));
    OneCollision(events + [Turn], Node(id, Candidate(Seed(id), k), Cid, 0, k), Candidate(Seed(id), k));
  }

  lemma {:induction false} AfterRounds(id: NodeId, k: nat)
    requires k <= 9
    ensures var t := After(Rounds(id, k));
      t.nodes == [Node(id, if k == 0 then NONE else Candidate(Seed(id), k), Idle, 0, k)] && !t.locked
  {
    hide After, Seed, Next, NodeHears;
    if k == 0 {
      FirstNode(id);
    } else {
      var before, a := Rounds(id, k - 1), Candidate(Seed(id), k - 1);
      AfterRounds(id, k - 1);
      Collides(before, id, if k == 1 then NONE else a, k - 1);
      OneTurn(before + [Turn] + [Collision(a)], Node(id, a, Conflict, 0, k - 1));
      assert Rounds(id, k) == before + [Turn] + [Collision(a)] + [Turn];
    }
  }

  lemma FirstNode(id: NodeId)
    ensures After([Register(id)]) == Net([Node(id, NONE, Idle, 0, 0)], false, [])
  {
    AfterOne([], Register(id));
    assert [] + [Register(id)] == [Register(id)];
  }

  lemma TwoMore(events: seq<Event>, n: Node, id1: NodeId, id2: NodeId)
    requires After(events).nodes == [n]
    ensures var t := After(events + [Register(id1)] + [Register(id2)]);
      t.nodes == [n, Node(id1, NONE, Idle, 0, 0), Node(id2, NONE, Idle, 0, 0)] && t.locked == After(events).locked
  {
    hide After;
    AfterOne(events, Register(id1));
    AfterOne(events + [Register(id1)], Register(id2));
  }

  lemma ThreeNodesTick(net: Net)
    requires |net.nodes| == 3
    ensures AllTicked(net) == Ticked(Ticked(Ticked(net, 0), 1), 2)
  {
    hide Ticked;
    assert TickedTo(net, 1) == Ticked(net, 0);
    assert TickedTo(net, 2) == Ticked(Ticked(net, 0), 1);
  }

  /** The node that gives up lets the lock go again on every tick, so both others get it. */
  lemma BothGetIt(net: Net, n: Node, id1: NodeId, id2: NodeId)
    requires net.nodes == [n, Node(id1, NONE, Idle, 0, 0), Node(id2, NONE, Idle, 0, 0)]
    requires n.stage == Conflict && n.retries == 9
    ensures var t := AllTicked(AllTicked(net));
      |t.nodes| == 3 && t.nodes[0].stage == Conflict && t.nodes[1].stage == Wait && t.nodes[2].stage == Cid
  {
    hide Seed, Next, TickFrames, TickedTo;
    ThreeNodesTick(net);
    ThreeNodesTick(AllTicked(net));
  }

  /** Whatever the node IDs, a run of registrations, turns and collisions in which the first node gives up and
      the two others are then allocating at once. */
  lemma GivenUpBreaks(id0: NodeId, id1: NodeId, id2: NodeId)
    ensures var events := GiveUp(id0, id1, id2);
      var nodes := After(events).nodes;
      !Calm(events) && |nodes| == 3 && nodes[1].stage == Wait && nodes[2].stage == Cid
  {
    hide After, Seed, Next, AllTicked, Calm, Rounds, Candidate;
    var a := Candidate(Seed(id0), 9);
    var n := Node(id0, a, Conflict, 0, 9);
    AfterRounds(id0, 9);
    Collides(Rounds(id0, 9), id0, a, 9);
    var jammed := Rounds(id0, 9) + [Turn] + [Collision(a)];
    TwoMore(jammed, n, id1, id2);
    var waiting := jammed + [Register(id1)] + [Register(id2)];
    AfterOne(waiting, Turn);
    AfterOne(waiting + [Turn], Turn);
    BothGetIt(After(waiting), n, id1, id2);
    assert Busy(After(GiveUp(id0, id1, id2)).nodes[1]) && Busy(After(GiveUp(id0, id1, id2)).nodes[2]);
    MutualExclusion(GiveUp(id0, id1, id2));
  }

  // ---- an alias is claimed only after silence ----------------------------------------------

  function TurnsSince(events: seq<Event>, s: nat): nat {
    if |events| <= s then 0
    else TurnsSince(events[..|events| - 1], s) + if events[|events| - 1].Turn? then 1 else 0
  }

  ghost predicate Quiet(events: seq<Event>, s: nat, a: Alias) {
    forall k :: s <= k < |events| ==> events[k] != Collision(a)
  }

  /** Event `s` made node `i` take the lock and send its checks for alias `a`. */
  ghost predicate Began(events: seq<Event>, s: nat, i: nat, a: Alias) {
    && s < |events| && events[s].Turn?
    && i < |After(events[..s]).nodes| && After(events[..s]).nodes[i].stage == Idle
    && i < |After(events[..s + 1]).nodes| && After(events[..s + 1]).nodes[i].stage == Cid
    && After(events[..s + 1]).nodes[i].alias == a
  }

  /** Since then `t` turns of the loop have gone by without a collision. */
  ghost predicate Waiting(events: seq<Event>, s: nat, i: nat, a: Alias, t: nat) {
    Began(events, s, i, a) && Quiet(events, s + 1, a) && TurnsSince(events, s + 1) == t
  }

  ghost predicate HasWaited(events: seq<Event>, i: nat, a: Alias, t: nat) {
    exists s: nat :: Waiting(events, s, i, a, t)
  }

  /** At event `e - 1` node `i` had waited three turns since it began. */
  ghost predicate Waited(events: seq<Event>, s: nat, e: nat, i: nat, a: Alias) {
    s < e <= |events| && Waiting(events[..e], s, i, a, 3)
  }

  lemma BeganGrows(events: seq<Event>, x: Event, s: nat, i: nat, a: Alias)
    requires Began(events, s, i, a)
    ensures Began(events + [x], s, i, a)
  {
    hide After;
    assert (events + [x])[..s] == events[..s] && (events + [x])[..s + 1] == events[..s + 1];
  }

  lemma WaitingGrows(events: seq<Event>, x: Event, s: nat, i: nat, a: Alias, t: nat)
    requires Waiting(events, s, i, a, t) && x != Collision(a)
    ensures Waiting(events + [x], s, i, a, if x.Turn? then t + 1 else t)
  {
    BeganGrows(events, x, s, i, a);
    BeganEarlier(events, s, i, a);
    hide Began;
    assert (events + [x])[..|events|] == events;
  }

  lemma BeganEarlier(events: seq<Event>, s: nat, i: nat, a: Alias)
    requires Began(events, s, i, a)
    ensures s < |events|
  {
  }

  lemma WaitedGrows(events: seq<Event>, x: Event, s: nat, e: nat, i: nat, a: Alias)
    requires Waited(events, s, e, i, a)
    ensures Waited(events + [x], s, e, i, a)
  {
    hide Waiting;
    assert (events + [x])[..e] == events[..e];
  }

  ghost predicate Honest(events: seq<Event>, i: nat)
    requires i < |After(events).nodes|
  {
    var n := After(events).nodes[i];
    match n.stage
    case Cid => HasWaited(events, i, n.alias, 0)
    case Wait => n.waitTicks < WAIT_TICKS && HasWaited(events, i, n.alias, 1 + n.waitTicks)
    case Confirmed => exists s: nat, e: nat :: Waited(events, s, e, i, n.alias)
    case _ => true
  }

  lemma HasWaitedGrows(events: seq<Event>, x: Event, i: nat, a: Alias, t: nat)
    requires HasWaited(events, i, a, t) && x != Collision(a)
    ensures HasWaited(events + [x], i, a, if x.Turn? then t + 1 else t)
  {
    hide Waiting;
    var s: nat :| Waiting(events, s, i, a, t);
    WaitingGrows(events, x, s, i, a, t);
  }

  lemma NowWaited(events: seq<Event>, i: nat, a: Alias)
    requires HasWaited(events, i, a, 3)
    ensures exists s: nat, e: nat :: Waited(events, s, e, i, a)
  {
    hide Began, Quiet, TurnsSince;
    assert events[..|events|] == events;
    var s: nat :| Waiting(events, s, i, a, 3);
    BeganEarlier(events, s, i, a);
    assert Waited(events, s, |events|, i, a);
  }

  /** How node `i` fares in a turn of the loop. */
  lemma TurnAt(events: seq<Event>, i: nat) returns (free: bool)
    requires i < |After(events).nodes|
    ensures i < |After(events + [Turn]).nodes|
    ensures After(events + [Turn]).nodes[i] == NodeTick(After(events).nodes[i], free)
  {
    hide NodeTick, TickedTo;
    AfterOne(events, Turn);
    LoopAt(After(events), |After(events).nodes|, i);
    free := !TickedTo(After(events), i).locked;
  }

  lemma HonestTurn(events: seq<Event>, i: nat)
    requires i < |After(events).nodes| && Honest(events, i)
    ensures i < |After(events + [Turn]).nodes| && Honest(events + [Turn], i)
  {
    hide After, HasWaited, Waited, Waiting, Next, Seed;
    var n := After(events).nodes[i];
    var free := TurnAt(events, i);
    match n.stage
    case Idle =>
      if free {
        BeganNow(events, i);
      }
    case Cid => HasWaitedGrows(events, Turn, i, n.alias, 0);
    case Wait =>
      HasWaitedGrows(events, Turn, i, n.alias, 1 + n.waitTicks);
      if n.waitTicks == 1 {
        NowWaited(events + [Turn], i, n.alias);
      }
    case Conflict =>
    case Confirmed =>
      var s: nat, e: nat :| Waited(events, s, e, i, n.alias);
      WaitedGrows(events, Turn, s, e, i, n.alias);
  }

  lemma BeganNow(events: seq<Event>, i: nat)
    requires i < |After(events).nodes| && After(events).nodes[i].stage == Idle
    requires i < |After(events + [Turn]).nodes| && After(events + [Turn]).nodes[i].stage == Cid
    ensures HasWaited(events + [Turn], i, After(events + [Turn]).nodes[i].alias, 0)
  {
    hide After;
    var all := events + [Turn];
    assert all[..|events|] == events && all[..|events| + 1] == all;
    assert Waiting(all, |events|, i, After(all).nodes[i].alias, 0);
  }

  lemma CollisionAt(events: seq<Event>, i: nat, a: Alias)
    requires i < |After(events).nodes|
    ensures i < |After(events + [Collision(a)]).nodes|
    ensures After(events + [Collision(a)]).nodes[i] == NodeHears(After(events).nodes[i], a)
  {
    hide After, NodeHears, HeardTo;
    AfterOne(events, Collision(a));
  }

  lemma HonestCollision(events: seq<Event>, i: nat, a: Alias)
    requires i < |After(events).nodes| && Honest(events, i)
    ensures i < |After(events + [Collision(a)]).nodes| && Honest(events + [Collision(a)], i)
  {
    hide After, HasWaited, Waited;
    CollisionAt(events, i, a);
    StaysHonest(events, Collision(a), i, After(events).nodes[i]);
  }

  lemma StaysHonest(events: seq<Event>, x: Event, i: nat, n: Node)
    requires i < |After(events).nodes| && After(events).nodes[i] == n && Honest(events, i) && !x.Turn?
    ensures n.stage == Cid && x != Collision(n.alias) ==> HasWaited(events + [x], i, n.alias, 0)
    ensures n.stage == Wait && x != Collision(n.alias) ==>
              n.waitTicks < WAIT_TICKS && HasWaited(events + [x], i, n.alias, 1 + n.waitTicks)
    ensures n.stage == Confirmed ==> exists s: nat, e: nat :: Waited(events + [x], s, e, i, n.alias)
  {
    hide After, HasWaited, Waited;
    if n.stage == Cid && x != Collision(n.alias) {
      HasWaitedGrows(events, x, i, n.alias, 0);
    } else if n.stage == Wait && x != Collision(n.alias) {
      HasWaitedGrows(events, x, i, n.alias, 1 + n.waitTicks);
    } else if n.stage == Confirmed {
      var s: nat, e: nat :| Waited(events, s, e, i, n.alias);
      WaitedGrows(events, x, s, e, i, n.alias);
    }
  }

  lemma HonestRegister(events: seq<Event>, i: nat, id: NodeId)
    requires i < |After(events).nodes| ==> Honest(events, i)
    ensures i < |After(events + [Register(id)]).nodes| ==> Honest(events + [Register(id)], i)
  {
    AfterOne(events, Register(id));
    hide After, HasWaited, Waited;
    if i < |After(events).nodes| {
      StaysHonest(events, Register(id), i, After(events).nodes[i]);
    }
  }

  lemma {:induction false} EveryoneHonest(events: seq<Event>, i: nat)
    requires i < |After(events).nodes|
    ensures Honest(events, i)
    decreases |events|
  {
    var front, x := events[..|events| - 1], events[|events| - 1];
    assert events == front + [x];
    AfterOne(front, x);
    if i < |After(front).nodes| {
      EveryoneHonest(front, i);
    }
    hide Honest, After;
    match x
    case Turn => HonestTurn(front, i);
    case Collision(a) => HonestCollision(front, i, a);
    case Register(id) => HonestRegister(front, i, id);
  }

  /** In any run at all, a confirmed node took the lock and sent its checks for the alias it has, and then three
      turns of the loop passed without a collision on that alias before it claimed it. */
  lemma ClaimedAfterSilence(events: seq<Event>, i: nat)
    requires i < |After(events).nodes| && After(events).nodes[i].stage == Confirmed
    ensures exists s: nat, e: nat :: Waited(events, s, e, i, After(events).nodes[i].alias)
  {
    hide After, Waited;
    EveryoneHonest(events, i);
  }

  // ---- what goes on the bus ---------------------------------------------------------------

  /** A tick that takes the lock sends the four checks, which carry the node's ID in 12-bit pieces from the highest and
      the alias tried; one that confirms a node claims the alias, maps it to the ID and announces the node; any other
      sends nothing. Only the ticked node changes, and never its ID. */
  lemma TickSends(net: Net, i: nat)
    requires i < |net.nodes|
    ensures var t := Ticked(net, i); var n, m := net.nodes[i], t.nodes[i];
      && t.nodes == net.nodes[i := m] && m.id == n.id
      && t.sent == net.sent + if n.stage == Idle && m.stage == Cid then
              [CheckId(7, n.id.a, m.alias), CheckId(6, n.id.b, m.alias), CheckId(5, n.id.c, m.alias), CheckId(4, n.id.d, m.alias)]
            else if n.stage == Wait && m.stage == Confirmed then
              [Reserve(m.alias), MapDefinition(m.alias, n.id), InitComplete(m.alias, n.id)]
            else []
  {
    hide Seed, Next;
  }

  /** A collision frame turns back exactly the nodes that are trying its alias. */
  lemma HeardTurnsBack(net: Net, a: Alias, i: nat)
    requires i < |net.nodes|
    ensures var n, m := net.nodes[i], Heard(net, a).nodes[i];
      if n.alias == a && (n.stage == Cid || n.stage == Wait) then m == n.(stage := Conflict) else m == n
  {
  }

  /** Each node that has claimed the alias defends it. */
  lemma {:induction false} HeardDefends(net: Net, a: Alias, k: nat)
    requires k <= |net.nodes|
    ensures var t := HeardTo(net, a, k);
      && net.sent <= t.sent && (forall j :: |net.sent| <= j < |t.sent| ==> t.sent[j] == Reserve(a))
      && (|net.sent| < |t.sent| <==> exists i :: 0 <= i < k && net.nodes[i].alias == a && net.nodes[i].stage == Confirmed)
    decreases k
  {
    hide NodeHears;
    if k != 0 {
      HeardDefends(net, a, k - 1);
    }
  }

  ghost predicate Mapped(net: Net, a: Alias, id: NodeId) { MapDefinition(a, id) in net.sent }

  ghost predicate Claimed(net: Net, a: Alias, id: NodeId) {
    exists i :: 0 <= i < |net.nodes| && net.nodes[i].stage == Confirmed && net.nodes[i].alias == a && net.nodes[i].id == id
  }

  lemma TickMaps(net: Net, i: nat, a: Alias, id: NodeId)
    requires i < |net.nodes| && (Mapped(net, a, id) <==> Claimed(net, a, id))
    ensures Mapped(Ticked(net, i), a, id) <==> Claimed(Ticked(net, i), a, id)
  {
    TickMapped(net, i, a, id);
    TickClaimed(net, i, a, id);
    hide Mapped, Claimed, Ticked;
  }

  /** The tick has node `i` take alias `a`, and its ID is `id`. */
  ghost predicate Takes(net: Net, i: nat, a: Alias, id: NodeId)
    requires i < |net.nodes|
  {
    var n, m := net.nodes[i], Ticked(net, i).nodes[i];
    n.stage == Wait && m.stage == Confirmed && m.alias == a && n.id == id
  }

  lemma TickMapped(net: Net, i: nat, a: Alias, id: NodeId)
    requires i < |net.nodes|
    ensures Mapped(Ticked(net, i), a, id) <==> Mapped(net, a, id) || Takes(net, i, a, id)
  {
    TickSends(net, i);
    hide Ticked;
    var t := Ticked(net, i);
    if Takes(net, i, a, id) {
      assert t.sent[|net.sent| + 1] == MapDefinition(a, id);
    }
  }

  lemma TickClaimed(net: Net, i: nat, a: Alias, id: NodeId)
    requires i < |net.nodes|
    ensures Claimed(Ticked(net, i), a, id) <==> Claimed(net, a, id) || Takes(net, i, a, id)
  {
    TickSends(net, i);
    OnlyWaitConfirms(net, i);
    hide Ticked;
    var t := Ticked(net, i);
    assert forall j :: 0 <= j < |net.nodes| && j != i ==> t.nodes[j] == net.nodes[j];
    if Claimed(net, a, id) {
      var j :| 0 <= j < |net.nodes| && net.nodes[j].stage == Confirmed && net.nodes[j].alias == a && net.nodes[j].id == id;
      assert t.nodes[j] == net.nodes[j];
    }
    if Takes(net, i, a, id) {
      assert t.nodes[i].stage == Confirmed && t.nodes[i].id == id;
    }
  }

  lemma OnlyWaitConfirms(net: Net, i: nat)
    requires i < |net.nodes|
    ensures var n, m := net.nodes[i], Ticked(net, i).nodes[i];
      && (n.stage == Confirmed ==> m == n) && (m.stage == Confirmed && n.stage != Confirmed ==> n.stage == Wait)
  {
    hide Seed, Next, TickFrames;
  }

  lemma {:induction false} LoopMaps(net: Net, k: nat, a: Alias, id: NodeId)
    requires k <= |net.nodes| && (Mapped(net, a, id) <==> Claimed(net, a, id))
    ensures Mapped(TickedTo(net, k), a, id) <==> Claimed(TickedTo(net, k), a, id)
    decreases k
  {
    hide Mapped, Claimed, Ticked;
    if k != 0 {
      LoopMaps(net, k - 1, a, id);
      TickMaps(TickedTo(net, k - 1), k - 1, a, id);
    }
  }

  lemma HeardMaps(net: Net, x: Alias, a: Alias, id: NodeId)
    requires Mapped(net, a, id) <==> Claimed(net, a, id)
    ensures Mapped(Heard(net, x), a, id) <==> Claimed(Heard(net, x), a, id)
  {
    hide Mapped, Claimed, HeardTo;
    HeardMapped(net, x, a, id);
    HeardClaimed(net, x, a, id);
  }

  lemma HeardMapped(net: Net, x: Alias, a: Alias, id: NodeId)
    ensures Mapped(Heard(net, x), a, id) <==> Mapped(net, a, id)
  {
    var t := Heard(net, x);
    HeardDefends(net, x, |net.nodes|);
    hide HeardTo;
    if Mapped(net, a, id) {
      var j :| 0 <= j < |net.sent| && net.sent[j] == MapDefinition(a, id);
      assert t.sent[j] == MapDefinition(a, id);
    }
  }

  lemma HeardClaimed(net: Net, x: Alias, a: Alias, id: NodeId)
    ensures Claimed(Heard(net, x), a, id) <==> Claimed(net, a, id)
  {
    var t := Heard(net, x);
    forall i | 0 <= i < |net.nodes|
      ensures t.nodes[i].alias == net.nodes[i].alias && t.nodes[i].id == net.nodes[i].id
      ensures t.nodes[i].stage == Confirmed <==> net.nodes[i].stage == Confirmed
    {
      HeardTurnsBack(net, x, i);
    }
    hide HeardTo;
    if Claimed(net, a, id) {
      var i :| 0 <= i < |net.nodes| && net.nodes[i].stage == Confirmed && net.nodes[i].alias == a && net.nodes[i].id == id;
      assert t.nodes[i].stage == Confirmed;
    }
  }

  lemma RegisterMaps(net: Net, x: NodeId, a: Alias, id: NodeId)
    requires Mapped(net, a, id) <==> Claimed(net, a, id)
    ensures Mapped(Registered(net, x), a, id) <==> Claimed(Registered(net, x), a, id)
  {
    var t := Registered(net, x);
    if Claimed(net, a, id) {
      var i :| 0 <= i < |net.nodes| && net.nodes[i].stage == Confirmed && net.nodes[i].alias == a && net.nodes[i].id == id;
      assert t.nodes[i] == net.nodes[i];
    }
    if Claimed(t, a, id) {
      var i :| 0 <= i < |t.nodes| && t.nodes[i].stage == Confirmed && t.nodes[i].alias == a && t.nodes[i].id == id;
      assert i < |net.nodes| && t.nodes[i] == net.nodes[i];
    }
  }

  /** Over any run, an alias has been mapped to a node ID on the bus exactly if a node with that ID has it confirmed. */
  lemma {:induction false} MappedIsConfirmed(events: seq<Event>, a: Alias, id: NodeId)
    ensures Mapped(After(events), a, id) <==> Claimed(After(events), a, id)
    decreases |events|
  {
    hide Mapped, Claimed, Heard, Registered, TickedTo;
    if events == [] {
      NothingMapped(a, id);
    } else {
      var front, e := events[..|events| - 1], events[|events| - 1];
      MappedIsConfirmed(front, a, id);
      var net := After(front);
      match e
      case Turn => LoopMaps(net, |net.nodes|, a, id);
      case Collision(x) => HeardMaps(net, x, a, id);
      case Register(x) => RegisterMaps(net, x, a, id);
    }
  }

  lemma NothingMapped(a: Alias, id: NodeId)
    ensures !Mapped(Net([], false, []), a, id) && !Claimed(Net([], false, []), a, id)
  {
  }

  // ---- candidates -------------------------------------------------------------------------

  /** A turn takes node `i` on to its next candidate. */
  ghost predicate TriesNext(net: Net, e: Event, i: nat) {
    e.Turn? && i < |net.nodes| && net.nodes[i].stage == Conflict && !GivesUp(net.nodes[i])
  }

  ghost function Retries(events: seq<Event>, i: nat): nat
    decreases |events|
  {
    if events == [] then 0
    else
      var front, e := events[..|events| - 1], events[|events| - 1];
      Retries(front, i) + if TriesNext(After(front), e, i) then 1 else 0
  }

  /** Node `n` has the `m`-th candidate, or none yet. */
  ghost predicate OnSequence(n: Node, m: nat) {
    if n.alias == NONE then n.stage == Idle && m == 0 else n.alias == Candidate(Seed(n.id), m)
  }

  lemma TickOnSequence(n: Node, m: nat, free: bool)
    requires OnSequence(n, m)
    ensures OnSequence(NodeTick(n, free), if n.stage == Conflict && !GivesUp(n) then m + 1 else m)
    ensures NodeTick(n, free).id == n.id
  {
    hide Next, Seed;
    var s := Seed(n.id);
    CandidatesDiffer(n.id, m + 1, m + 2);
    assert Candidate(s, m + 1) == Next(Candidate(s, m));
    assert Candidate(s, 0) == s;
  }

  lemma OneMoreEvent(events: seq<Event>, e: Event, i: nat)
    ensures After(events + [e]) == Apply(After(events), e)
    ensures Retries(events + [e], i) == Retries(events, i) + if TriesNext(After(events), e, i) then 1 else 0
  {
    hide Apply, TriesNext;
    assert (events + [e])[..|events|] == events;
  }

  /** An event takes a node along its own sequence, one step for each retry. */
  lemma EventOnSequence(net: Net, e: Event, i: nat, m: nat)
    requires i < |net.nodes| && OnSequence(net.nodes[i], m)
    ensures i < |Apply(net, e).nodes| && Apply(net, e).nodes[i].id == net.nodes[i].id
    ensures OnSequence(Apply(net, e).nodes[i], if TriesNext(net, e, i) then m + 1 else m)
  {
    hide TickedTo, GivesUp, NodeTick;
    match e
    case Turn =>
      LoopAt(net, |net.nodes|, i);
      TickOnSequence(net.nodes[i], m, !TickedTo(net, i).locked);
    case Collision(a) => HearsOnSequence(net.nodes[i], m, a);
    case Register(id) =>
  }

  lemma HearsOnSequence(n: Node, m: nat, a: Alias)
    requires OnSequence(n, m)
    ensures OnSequence(NodeHears(n, a), m) && NodeHears(n, a).id == n.id
  {
  }

  /** A node that is just registered, or not yet. */
  lemma NewOnSequence(net: Net, e: Event, i: nat)
    requires |net.nodes| <= i < |Apply(net, e).nodes|
    ensures OnSequence(Apply(net, e).nodes[i], 0)
  {
    hide TickedTo;
  }

  lemma {:induction false} NoRetriesYet(events: seq<Event>, i: nat)
    requires |After(events).nodes| <= i
    ensures Retries(events, i) == 0
    decreases |events|
  {
    if events != [] {
      var front, e := events[..|events| - 1], events[|events| - 1];
      assert events == front + [e];
      OneMoreEvent(front, e, i);
      NeverFewer(After(front), e);
      NoRetriesYet(front, i);
    }
  }

  lemma NeverFewer(net: Net, e: Event)
    ensures |net.nodes| <= |Apply(net, e).nodes|
  {
    hide Ticked;
  }

  /** In any run a node has the candidate that its retries select, whether or not it ever gave up. */
  lemma {:induction false} CandidateByRetries(events: seq<Event>, i: nat)
    requires i < |After(events).nodes|
    ensures OnSequence(After(events).nodes[i], Retries(events, i))
    decreases |events|
  {
    hide Apply, OnSequence, TriesNext;
    if events == [] {
      assert false;
    } else {
      var front, e := events[..|events| - 1], events[|events| - 1];
      assert events == front + [e];
      OneMoreEvent(front, e, i);
      if i < |After(front).nodes| {
        CandidateByRetries(front, i);
        EventOnSequence(After(front), e, i, Retries(front, i));
      } else {
        NoRetriesYet(front, i);
        NotThereYet(After(front), e, i);
        NewOnSequence(After(front), e, i);
      }
    }
  }

  lemma NotThereYet(net: Net, e: Event, i: nat)
    requires |net.nodes| <= i
    ensures !TriesNext(net, e, i)
  {
  }

  lemma {:induction false} SameId(events: seq<Event>, k: nat, i: nat)
    requires k <= |events| && i < |After(events[..k]).nodes|
    ensures i < |After(events).nodes| && After(events).nodes[i].id == After(events[..k]).nodes[i].id
    decreases |events|
  {
    hide Apply, OnSequence;
    if k == |events| {
      assert events[..k] == events;
    } else {
      var front, e := events[..|events| - 1], events[|events| - 1];
      assert events == front + [e] && front[..k] == events[..k];
      SameId(front, k, i);
      OneMoreEvent(front, e, i);
      CandidateByRetries(front, i);
      EventOnSequence(After(front), e, i, Retries(front, i));
    }
  }

  /** In any run, each retry moves a node to a candidate it has not tried in its last 90 retries. */
  lemma FreshCandidates(events: seq<Event>, k: nat, i: nat)
    requires k <= |events| && i < |After(events[..k]).nodes| && After(events[..k]).nodes[i].alias != NONE
    requires Retries(events[..k], i) < Retries(events, i) < Retries(events[..k], i) + 91
    ensures i < |After(events).nodes| && After(events).nodes[i].alias != After(events[..k]).nodes[i].alias
  {
    hide After, Retries, Seed;
    SameId(events, k, i);
    CandidateByRetries(events[..k], i);
    CandidateByRetries(events, i);
    CandidatesDiffer(After(events).nodes[i].id, Retries(events[..k], i), Retries(events, i));
  }

  // ---- the allocator ----------------------------------------------------------------------

  function Field(id: NodeId, sequence: nat): bv12 {
    if sequence == 7 then id.a else if sequence == 6 then id.b else if sequence == 5 then id.c else id.d
  }

  class Allocator {
    const nodes: array<Node>
    var count: nat
    var locked: bool
    var sent: seq<Frame>

    ghost predicate Valid()
      reads this
    {
      nodes.Length == MAX_NODES && count <= MAX_NODES
    }

    ghost function View(): Net
      reads this, nodes
      requires Valid()
    {
      Net(nodes[..count], locked, sent)
    }

    constructor ()
      ensures Valid() && fresh(nodes) && View() == After([])
    {
      nodes := new Node[MAX_NODES](_ => Node(NodeId(0, 0, 0, 0), NONE, Idle, 0, 0));
      count, locked, sent := 0, false, [];
    }

    method Add(id: NodeId) returns (ok: bool)
      requires Valid()
      modifies this`count, nodes
      ensures Valid() && View() == Registered(old(View()), id) && ok == (old(count) < MAX_NODES)
    {
      ok := count < MAX_NODES;
      if ok {
        nodes[count] := Node(id, NONE, Idle, 0, 0);
        count := count + 1;
      }
    }

    method TryLock() returns (ok: bool)
      modifies this`locked
      ensures ok == !old(locked) && locked
    {
      ok := !locked;
      locked := true;
    }

    method Unlock()
      modifies this`locked
      ensures !locked
    {
      locked := false;
    }

    method EmitChecks(n: Node)
      modifies this`sent
      ensures sent == old(sent) + CheckFrames(n)
    {
      var s := 7;
      ghost var was := sent;
      while 4 <= s
        invariant 3 <= s <= 7
        invariant sent == was + CheckFrames(n)[..7 - s]
      {
        sent := sent + [CheckId(s, Field(n.id, s), n.alias)];
        s := s - 1;
      }
      assert CheckFrames(n)[..4] == CheckFrames(n);
    }

    method Tick(i: nat)
      requires Valid() && i < count
      modifies this`locked, this`sent, nodes
      ensures Valid() && View() == Ticked(old(View()), i)
    {
      hide CheckFrames, Seed, Next;
      ghost var before := View();
      var n := nodes[i];
      match n.stage {
        case Idle =>
          if n.alias == NONE {
            nodes[i] := n.(alias := Seed(n.id));
          }
          var ok := TryLock();
          if ok {
            EmitChecks(nodes[i]);
            nodes[i] := nodes[i].(stage := Cid, waitTicks := 0);
          }
        case Cid =>
          nodes[i] := n.(stage := Wait, waitTicks := 0);
        case Wait =>
          nodes[i] := n.(waitTicks := Add8(n.waitTicks));
          if WAIT_TICKS <= nodes[i].waitTicks {
            sent := sent + [Reserve(n.alias), MapDefinition(n.alias, n.id), InitComplete(n.alias, n.id)];
            nodes[i] := nodes[i].(stage := Confirmed);
            Unlock();
          }
        case Conflict =>
          nodes[i] := n.(retries := Add8(n.retries));
          Unlock();
          if nodes[i].retries < MAX_RETRIES {
            nodes[i] := nodes[i].(alias := Next(n.alias), stage := Idle);
          }
        case Confirmed =>
      }
      assert View().nodes == before.nodes[i := NodeTick(n, !before.locked)];
    }

    method TickAll()
      requires Valid()
      modifies this`locked, this`sent, nodes
      ensures Valid() && View() == AllTicked(old(View()))
    {
      hide Ticked;
      ghost var before := View();
      var i: nat := 0;
      while i < count
        invariant i <= count && Valid() && count == old(count)
        invariant View() == TickedTo(before, i)
      {
        if nodes[i].stage != Confirmed {
          Tick(i);
        } else {
          ConfirmedStays(View(), i);
        }
        i := i + 1;
      }
    }

    method OnCollision(i: nat)
      requires Valid() && i < count
      modifies this`sent, nodes
      ensures Valid()
      ensures nodes[..count] == old(nodes[..count])[i := NodeHears(old(nodes[i]), old(nodes[i].alias))]
      ensures sent == old(sent) + if old(nodes[i].stage) == Confirmed then [Reserve(old(nodes[i].alias))] else []
    {
      var n := nodes[i];
      match n.stage {
        case Cid => nodes[i] := n.(stage := Conflict);
        case Wait => nodes[i] := n.(stage := Conflict);
        case Confirmed => sent := sent + [Reserve(n.alias)];
        case _ =>
      }
    }

    /** A control frame from source alias `a`. */
    method HandleControl(a: Alias)
      requires Valid()
      modifies this`sent, nodes
      ensures Valid() && View() == Heard(old(View()), a)
    {
      ghost var before := View();
      var i: nat := 0;
      while i < count
        invariant i <= count && Valid()
        invariant View() == HeardTo(before, a, i)
      {
        ghost var n := nodes[i];
        assert View().nodes[i] == n;
        if nodes[i].alias == a {
          OnCollision(i);
        }
        assert View().nodes == HeardTo(before, a, i).nodes[i := NodeHears(n, a)];
        i := i + 1;
      }
    }
  }
}
