/** Traction commands: what a command does to a train, and how a consist passes it on. */
module Traction {
  import opened Bits
  import opened Wrappers

  const RX_BUFFER: nat := 32
  const FORWARD_MAX: nat := 8
  const FRAME_MAX: nat := 6
  const MAX_FUNCTION: nat := 68
  const SET_SPEED: u8 := 0x00
  const SET_FUNCTION: u8 := 0x01
  const EMERGENCY_STOP: u8 := 0x02
  const CONSIST_CONFIG: u8 := 0x30
  const ATTACH: u8 := 0x01
  const DETACH: u8 := 0x02
  const NO_ID: seq<u8> := [0, 0, 0, 0, 0, 0]
  const ERR_OK: u16 := 0
  const ERR_NOT_FOUND: u16 := 0x1030
  const ERR_ALREADY_EXISTS: u16 := 0x1032

  /** A consist slot: the member's node ID, all zeros if the slot is empty, and its flags. */
  datatype Entry = Entry(nodeId: seq<u8>, flags: u8)

  /** `functions` are the functions that are on; `received` is what a multi-frame command has brought so far. */
  datatype Train = Train(
    address: u16, isLong: bool, speed: u16, functions: set<nat>, emergency: bool, consist: seq<Entry>,
    received: seq<u8>, receivedFrom: u16, receiving: bool)

  datatype Node = Node(id: seq<u8>, alias: u16, train: Option<Train>)

  /** Calls of the command station's hooks. */
  datatype Call =
    | Throttle(address: u16, isLong: bool, speed: u16, forward: bool)
    | Function(address: u16, isLong: bool, fn: nat, on: bool)
    | Stop(address: u16, isLong: bool)

  datatype Message = Message(src: u16, dst: u16, reply: bool, payload: seq<u8>)

  datatype State = State(nodes: seq<Node>, calls: seq<Call>, sent: seq<Message>)

  // ---- commands ---------------------------------------------------------------------------

  function Sub(p: seq<u8>): u8
    requires p != []
  {
    p[0] % 0x80
  }

  predicate Listener(p: seq<u8>)
    requires p != []
  {
    0x80 <= p[0]
  }

  /** The commands that a consist passes on. */
  predicate Forwards(p: seq<u8>) { p != [] && Sub(p) <= EMERGENCY_STOP }

  function Pair(high: u8, low: u8): u16 {
    var h: int := high;
    0x100 * h + low
  }

  function FunctionOf(p: seq<u8>): nat
    requires 4 <= |p|
  {
    var high: int := p[1];
    0x1_0000 * high + Pair(p[2], p[3])
  }

  function Acted(t: Train, p: seq<u8>): Train {
    if p == [] then t
    else if Sub(p) == SET_SPEED then
      if |p| < 3 then t else t.(speed := Pair(p[1], p[2]), emergency := false)
    else if Sub(p) == SET_FUNCTION then
      if |p| < 6 || MAX_FUNCTION < FunctionOf(p) then t
      else t.(functions := if p[4] != 0 || p[5] != 0 then t.functions + {FunctionOf(p)} else t.functions - {FunctionOf(p)})
    else if Sub(p) == EMERGENCY_STOP then t.(speed := if t.speed < 0x8000 then 0 else 0x8000, emergency := true)
    else t
  }

  function Calls(t: Train, p: seq<u8>): seq<Call> {
    if p == [] then []
    else if Sub(p) == SET_SPEED then
      if |p| < 3 then [] else [Throttle(t.address, t.isLong, Pair(p[1], p[2]), p[1] < 0x80)]
    else if Sub(p) == SET_FUNCTION then
      if |p| < 6 || MAX_FUNCTION < FunctionOf(p) then []
      else [Function(t.address, t.isLong, FunctionOf(p), p[4] != 0 || p[5] != 0)]
    else if Sub(p) == EMERGENCY_STOP then [Stop(t.address, t.isLong)]
    else []
  }

  function Applied(s: State, i: nat, p: seq<u8>): State
    requires i < |s.nodes| && s.nodes[i].train.Some?
  {
    var n := s.nodes[i];
    s.(nodes := s.nodes[i := n.(train := Some(Acted(n.train.value, p)))], calls := s.calls + Calls(n.train.value, p))
  }

  // ---- forwarding -------------------------------------------------------------------------

  predicate Reverse(flags: u8) { flags / 2 % 2 == 1 }

  predicate LinksF0(flags: u8) { flags / 4 % 2 == 1 }

  predicate LinksFn(flags: u8) { flags / 8 % 2 == 1 }

  function Flip(b: u8): u8 { if b < 0x80 then b + 0x80 else b - 0x80 }

  /** A command too long for the forwarding buffer goes no further, nor does a function that a slot does not link. */
  predicate ShouldForward(p: seq<u8>, flags: u8)
    requires p != []
  {
    && |p| <= FORWARD_MAX
    && (Sub(p) == SET_FUNCTION && 4 <= |p| ==> if FunctionOf(p) == 0 then LinksF0(flags) else LinksFn(flags))
  }

  /** A command that fits the one frame it would be passed on in, or is too long to be passed on. */
  predicate Carried(p: seq<u8>) { |p| <= FRAME_MAX || FORWARD_MAX < |p| }

  /** The command as a member gets it: marked as passed on, the direction flipped for a reversed member. */
  function Passed(p: seq<u8>, flags: u8): (r: seq<u8>)
    requires p != []
    ensures |r| == |p| && Listener(r) && Sub(r) == Sub(p)
  {
    var marked: seq<u8> := [Sub(p) + 0x80] + p[1..];
    if Sub(p) == SET_SPEED && Reverse(flags) && 3 <= |p| then marked[1 := Flip(p[1])] else marked
  }

  /** The first node, from `k` on, that has the ID. */
  function Find(nodes: seq<Node>, id: seq<u8>, k: nat): (r: int)
    requires k <= |nodes|
    ensures r == -1 || k <= r < |nodes|
    ensures r != -1 ==> nodes[r].id == id && forall j :: k <= j < r ==> nodes[j].id != id
    ensures r == -1 ==> forall j :: k <= j < |nodes| ==> nodes[j].id != id
    decreases |nodes| - k
  {
    if k == |nodes| then -1 else if nodes[k].id == id then k else Find(nodes, id, k + 1)
  }

  /** The node that slot `e` of node `i`'s consist passes the command to, -1 if none. */
  function Target(nodes: seq<Node>, i: nat, e: Entry, sender: u16, p: seq<u8>): (r: int)
    requires p != []
    ensures -1 <= r < |nodes|
  {
    if e.nodeId == NO_ID || !ShouldForward(p, e.flags) then -1
    else
      var d := Find(nodes, e.nodeId, 0);
      if d == -1 || d == i || nodes[d].alias == sender then -1 else d
  }

  /** A command at a node that has a train. `sender` is who it came from. */
  function Dispatched(s: State, i: nat, sender: u16, p: seq<u8>): (r: State)
    requires i < |s.nodes| && s.nodes[i].train.Some?
    ensures |r.nodes| == |s.nodes|
    decreases if p != [] && !Listener(p) then 1 else 0, 1, 0
  {
    if p == [] then s
    else if Sub(p) <= EMERGENCY_STOP then
      var t := Applied(s, i, p);
      if Listener(p) then t else PassedOn(t, i, sender, p, |t.nodes[i].train.value.consist|)
    else if Sub(p) == CONSIST_CONFIG then Configured(s, i, sender, p)
    else s
  }

  /** After the first `k` slots of the consist. */
  function PassedOn(s: State, i: nat, sender: u16, p: seq<u8>, k: nat): (r: State)
    requires i < |s.nodes| && s.nodes[i].train.Some? && k <= |s.nodes[i].train.value.consist|
    requires p != [] && !Listener(p)
    ensures |r.nodes| == |s.nodes|
    decreases 1, 0, k
  {
    if k == 0 then s
    else
      var before := PassedOn(s, i, sender, p, k - 1);
      var e := s.nodes[i].train.value.consist[k - 1];
      var d := Target(before.nodes, i, e, sender, p);
      if d == -1 then before else ToMember(before, s.nodes[i].alias, d, Passed(p, e.flags))
  }

  function ToMember(s: State, from: u16, d: nat, p: seq<u8>): (r: State)
    requires d < |s.nodes| && p != [] && Listener(p)
    ensures |r.nodes| == |s.nodes|
    decreases 0, 2, 0
  {
    var t := s.(sent := s.sent + [Message(from, s.nodes[d].alias, false, p)]);
    if t.nodes[d].train.None? then t else Dispatched(t, d, from, p)
  }

  // ---- consist configuration ---------------------------------------------------------------

  function FindEntry(consist: seq<Entry>, id: seq<u8>, k: nat): (r: int)
    requires k <= |consist|
    ensures r == -1 || k <= r < |consist|
    ensures r != -1 ==> consist[r].nodeId == id && forall j :: k <= j < r ==> consist[j].nodeId != id
    ensures r == -1 ==> forall j :: k <= j < |consist| ==> consist[j].nodeId != id
    decreases |consist| - k
  {
    if k == |consist| then -1 else if consist[k].nodeId == id then k else FindEntry(consist, id, k + 1)
  }

  datatype ConsistResult = ConsistResult(consist: seq<Entry>, error: u16)

  function Attached(consist: seq<Entry>, self: seq<u8>, target: seq<u8>, flags: u8): ConsistResult {
    var at := FindEntry(consist, target, 0);
    var free := FindEntry(consist, NO_ID, 0);
    if target == self then ConsistResult(consist, ERR_ALREADY_EXISTS)
    else if at != -1 then ConsistResult(consist[at := consist[at].(flags := flags)], ERR_OK)
    else if free == -1 then ConsistResult(consist, ERR_ALREADY_EXISTS)
    else ConsistResult(consist[free := Entry(target, flags)], ERR_OK)
  }

  function Detached(consist: seq<Entry>, target: seq<u8>): ConsistResult {
    var at := FindEntry(consist, target, 0);
    if at == -1 then ConsistResult(consist, ERR_NOT_FOUND) else ConsistResult(consist[at := Entry(NO_ID, 0)], ERR_OK)
  }

  function ConsistReply(sub: u8, target: seq<u8>, error: u16): seq<u8> {
    [CONSIST_CONFIG, sub] + target + [error / 0x100, error % 0x100]
  }

  /** Attach and detach; a query only answers. */
  function Configured(s: State, i: nat, sender: u16, p: seq<u8>): (r: State)
    requires i < |s.nodes| && s.nodes[i].train.Some? && p != []
    ensures |r.nodes| == |s.nodes|
  {
    if |p| < 9 || (p[1] != ATTACH && p[1] != DETACH) then s
    else
      var n := s.nodes[i];
      var t := n.train.value;
      var target := p[3..9];
      var c := if p[1] == ATTACH then Attached(t.consist, n.id, target, p[2]) else Detached(t.consist, target);
      s.(nodes := s.nodes[i := n.(train := Some(t.(consist := c.consist)))],
         sent := s.sent + [Message(n.alias, sender, true, ConsistReply(p[1], target, c.error))])
  }

  /** No member is listed twice, and no train is its own member. */
  ghost predicate Distinct(consist: seq<Entry>, self: seq<u8>) {
    && (forall j, k :: 0 <= j < k < |consist| && consist[j].nodeId == consist[k].nodeId ==> consist[j].nodeId == NO_ID)
    && (self != NO_ID ==> forall j :: 0 <= j < |consist| ==> consist[j].nodeId != self)
  }

  /** Attaching lists the member exactly once with its flags, if it can, and leaves the others alone. The zero ID
      names an empty slot. */
  lemma AttachKeeps(consist: seq<Entry>, self: seq<u8>, target: seq<u8>, flags: u8)
    requires Distinct(consist, self) && self != NO_ID
    ensures var c := Attached(consist, self, target, flags);
      && Distinct(c.consist, self) && |c.consist| == |consist|
      && (c.error == ERR_OK ==> Entry(target, flags) in c.consist)
      && (forall e: Entry :: e.nodeId != target && e.nodeId != NO_ID ==> (e in c.consist <==> e in consist))
      && (c.error != ERR_OK ==> c.consist == consist && (target == self || forall j :: 0 <= j < |consist| ==> consist[j].nodeId != NO_ID))
  {
    var c := Attached(consist, self, target, flags).consist;
    var at, free := FindEntry(consist, target, 0), FindEntry(consist, NO_ID, 0);
    if target != self && (at != -1 || free != -1) {
      var k := if at != -1 then at else free;
      assert c[k] == Entry(target, flags);
      forall e: Entry | e.nodeId != target && e.nodeId != NO_ID
        ensures e in c <==> e in consist
      {
        KeptAt(consist, k, Entry(target, flags), e);
      }
    }
  }

  lemma KeptAt(consist: seq<Entry>, k: nat, x: Entry, e: Entry)
    requires k < |consist| && e != x && e != consist[k]
    ensures e in consist[k := x] <==> e in consist
  {
    if e in consist {
      var j :| 0 <= j < |consist| && consist[j] == e;
      assert consist[k := x][j] == e;
    }
  }

  /** Detaching removes the member and nothing else; of the zero ID, it clears an empty slot's flags. */
  lemma DetachKeeps(consist: seq<Entry>, self: seq<u8>, target: seq<u8>)
    requires Distinct(consist, self)
    ensures var c := Detached(consist, target);
      && Distinct(c.consist, self) && |c.consist| == |consist|
      && (target != NO_ID ==> forall j :: 0 <= j < |consist| ==> c.consist[j].nodeId != target)
      && (forall e: Entry :: e.nodeId != target && e.nodeId != NO_ID ==> (e in c.consist <==> e in consist))
      && (c.error == ERR_OK <==> exists j :: 0 <= j < |consist| && consist[j].nodeId == target)
  {
    var c := Detached(consist, target).consist;
    var at := FindEntry(consist, target, 0);
    if at != -1 {
      forall e: Entry | e.nodeId != target && e.nodeId != NO_ID
        ensures e in c <==> e in consist
      {
        KeptAt(consist, at, Entry(NO_ID, 0), e);
      }
    }
  }

  /** Attach and detach change that train's consist alone and answer the sender once, naming the member and whether it
      is attached now, or was before. */
  lemma ConsistAnswered(s: State, i: nat, sender: u16, p: seq<u8>)
    requires i < |s.nodes| && s.nodes[i].train.Some? && 9 <= |p| && (p[1] == ATTACH || p[1] == DETACH)
    requires s.nodes[i].id != NO_ID && Distinct(s.nodes[i].train.value.consist, s.nodes[i].id)
    ensures var n, target, r := s.nodes[i], p[3..9], Configured(s, i, sender, p);
      var was, now := n.train.value.consist, r.nodes[i].train.value.consist;
      && r == s.(nodes := s.nodes[i := n.(train := Some(n.train.value.(consist := now)))], sent := r.sent)
      && |r.sent| == |s.sent| + 1 && r.sent[..|s.sent|] == s.sent
      && var m := r.sent[|s.sent|];
         && m.src == n.alias && m.dst == sender && m.reply
         && m.payload[..2] == [CONSIST_CONFIG, p[1]] && m.payload[2..8] == target && |m.payload| == 10
         && (m.payload[8..] == [0, 0] <==> if p[1] == ATTACH then target != n.id && Entry(target, p[2]) in now
                                          else exists k :: 0 <= k < |was| && was[k].nodeId == target)
  {
    var n, target := s.nodes[i], p[3..9];
    AttachKeeps(n.train.value.consist, n.id, target, p[2]);
    DetachKeeps(n.train.value.consist, n.id, target);
    ErrorsAre(n.train.value.consist, n.id, target, p[2]);
    hide Attached, Detached, Distinct;
    var c := if p[1] == ATTACH then Attached(n.train.value.consist, n.id, target, p[2]) else Detached(n.train.value.consist, target);
    ReplyParts(p[1], target, c.error);
    hide ConsistReply;
  }

  lemma ReplyParts(sub: u8, target: seq<u8>, error: u16)
    requires |target| == 6
    ensures var r := ConsistReply(sub, target, error);
      r[..2] == [CONSIST_CONFIG, sub] && r[2..8] == target && |r| == 10 && (r[8..] == [0, 0] <==> error == 0)
  {
    var r := ConsistReply(sub, target, error);
    assert r[8..] == [error / 0x100, error % 0x100];
    assert error == 0x100 * (error / 0x100) + error % 0x100;
  }

  lemma ErrorsAre(consist: seq<Entry>, self: seq<u8>, target: seq<u8>, flags: u8)
    ensures var e := Attached(consist, self, target, flags).error; e == ERR_OK || e == ERR_ALREADY_EXISTS
    ensures target == self ==> Attached(consist, self, target, flags).error != ERR_OK
    ensures var c := Attached(consist, self, target, flags); c.error != ERR_OK && target != self ==> Entry(target, flags) !in c.consist
    ensures var e := Detached(consist, target).error; e == ERR_OK || e == ERR_NOT_FOUND
  {
  }

  // ---- what a consist does -------------------------------------------------------------------

  /** A train that a command is passed to, with the flags of its slot. */
  datatype Member = Member(node: nat, flags: u8)

  function Members(nodes: seq<Node>, i: nat, consist: seq<Entry>, sender: u16, p: seq<u8>): (r: seq<Member>)
    requires p != []
    ensures forall m :: 0 <= m < |r| ==> r[m].node < |nodes|
  {
    if consist == [] then []
    else
      var front := Members(nodes, i, consist[..|consist| - 1], sender, p);
      var e := consist[|consist| - 1];
      var d := Target(nodes, i, e, sender, p);
      if d == -1 then front else front + [Member(d, e.flags)]
  }

  function FlagsOf(members: seq<Member>, j: nat): Option<u8> {
    if members == [] then None
    else if members[|members| - 1].node == j then Some(members[|members| - 1].flags)
    else FlagsOf(members[..|members| - 1], j)
  }

  function ActedNode(n: Node, p: seq<u8>): Node {
    if n.train.None? then n else n.(train := Some(Acted(n.train.value, p)))
  }

  function CallsAt(n: Node, p: seq<u8>): seq<Call> { if n.train.None? then [] else Calls(n.train.value, p) }

  /** The hooks called for the members, in slot order. */
  function MemberCalls(nodes: seq<Node>, members: seq<Member>, p: seq<u8>): seq<Call>
    requires p != [] && forall m :: 0 <= m < |members| ==> members[m].node < |nodes|
  {
    if members == [] then []
    else
      var m := members[|members| - 1];
      MemberCalls(nodes, members[..|members| - 1], p) + CallsAt(nodes[m.node], Passed(p, m.flags))
  }

  function MemberMessages(nodes: seq<Node>, from: u16, members: seq<Member>, p: seq<u8>): seq<Message>
    requires p != [] && forall m :: 0 <= m < |members| ==> members[m].node < |nodes|
  {
    if members == [] then []
    else
      var m := members[|members| - 1];
      MemberMessages(nodes, from, members[..|members| - 1], p) + [Message(from, nodes[m.node].alias, false, Passed(p, m.flags))]
  }

  /** Every node has what the members' shares of the command make of it, and nothing else. */
  ghost predicate Shared(nodes: seq<Node>, after: seq<Node>, members: seq<Member>, p: seq<u8>)
    requires p != []
  {
    && |after| == |nodes|
    && (forall j :: 0 <= j < |nodes| ==> after[j] == Share(nodes[j], FlagsOf(members, j), p))
  }

  function Share(n: Node, flags: Option<u8>, p: seq<u8>): Node
    requires p != []
  {
    if flags.None? then n else ActedNode(n, Passed(p, flags.value))
  }

  /** Acting on a command leaves a node's identity alone. */
  lemma ActedSame(n: Node, p: seq<u8>)
    ensures ActedNode(n, p).id == n.id && ActedNode(n, p).alias == n.alias
    ensures ActedNode(n, p).train.Some? == n.train.Some?
  {
  }

  lemma {:induction false} FindSame(nodes: seq<Node>, after: seq<Node>, id: seq<u8>, k: nat)
    requires k <= |nodes| == |after| && forall j :: 0 <= j < |nodes| ==> after[j].id == nodes[j].id
    ensures Find(after, id, k) == Find(nodes, id, k)
    decreases |nodes| - k
  {
    if k != |nodes| && nodes[k].id != id {
      FindSame(nodes, after, id, k + 1);
    }
  }

  lemma SharedSame(nodes: seq<Node>, after: seq<Node>, members: seq<Member>, p: seq<u8>)
    requires p != [] && Shared(nodes, after, members, p)
    ensures forall j :: 0 <= j < |nodes| ==> after[j].id == nodes[j].id && after[j].alias == nodes[j].alias
    ensures forall j :: 0 <= j < |nodes| ==> after[j].train.Some? == nodes[j].train.Some?
  {
    hide FlagsOf, Acted, Passed;
    forall j | 0 <= j < |nodes|
      ensures after[j].id == nodes[j].id && after[j].alias == nodes[j].alias && after[j].train.Some? == nodes[j].train.Some?
    {
      match FlagsOf(members, j)
      case None =>
      case Some(f) => ActedSame(nodes[j], Passed(p, f));
    }
  }

  lemma TargetSame(nodes: seq<Node>, after: seq<Node>, i: nat, e: Entry, sender: u16, p: seq<u8>)
    requires p != [] && |after| == |nodes|
    requires forall j :: 0 <= j < |nodes| ==> after[j].id == nodes[j].id && after[j].alias == nodes[j].alias
    ensures Target(after, i, e, sender, p) == Target(nodes, i, e, sender, p)
  {
    hide ShouldForward, Find;
    FindSame(nodes, after, e.nodeId, 0);
  }

  /** A slot's target has the slot's ID. */
  lemma TargetId(nodes: seq<Node>, i: nat, e: Entry, sender: u16, p: seq<u8>)
    requires p != []
    ensures var d := Target(nodes, i, e, sender, p); d != -1 ==> nodes[d].id == e.nodeId != NO_ID && d != i
  {
    hide ShouldForward;
  }

  /** Only the nodes that the slots name are members. */
  lemma {:induction false} MemberIds(nodes: seq<Node>, i: nat, consist: seq<Entry>, sender: u16, p: seq<u8>, j: nat)
    requires p != [] && j < |nodes| && FlagsOf(Members(nodes, i, consist, sender, p), j).Some?
    ensures exists k :: 0 <= k < |consist| && consist[k].nodeId == nodes[j].id
    ensures j != i && nodes[j].id != NO_ID
    decreases |consist|
  {
    hide Target, Find;
    var front, e := consist[..|consist| - 1], consist[|consist| - 1];
    var members := Members(nodes, i, front, sender, p);
    TargetId(nodes, i, e, sender, p);
    LastFlags(members, Member(j, e.flags), j);
    if FlagsOf(members, j).Some? {
      MemberIds(nodes, i, front, sender, p, j);
      var k :| 0 <= k < |front| && front[k].nodeId == nodes[j].id;
      assert consist[k].nodeId == nodes[j].id;
    } else {
      var d := Target(nodes, i, e, sender, p);
      if d != -1 {
        LastFlags(members, Member(d, e.flags), j);
      }
      assert consist[|consist| - 1].nodeId == nodes[j].id;
    }
  }

  lemma LastFlags(members: seq<Member>, m: Member, j: nat)
    ensures FlagsOf(members + [m], j) == if m.node == j then Some(m.flags) else FlagsOf(members, j)
  {
    assert (members + [m])[..|members|] == members;
  }

  lemma LastMember(nodes: seq<Node>, i: nat, consist: seq<Entry>, e: Entry, sender: u16, p: seq<u8>)
    requires p != []
    ensures Members(nodes, i, consist + [e], sender, p) == Members(nodes, i, consist, sender, p)
            + if Target(nodes, i, e, sender, p) == -1 then [] else [Member(Target(nodes, i, e, sender, p), e.flags)]
  {
    hide Target;
    assert (consist + [e])[..|consist|] == consist;
  }

  /** The next slot names a node that no earlier slot has named. */
  lemma NewMember(nodes: seq<Node>, i: nat, consist: seq<Entry>, e: Entry, sender: u16, p: seq<u8>)
    requires p != [] && forall k :: 0 <= k < |consist| && consist[k].nodeId == e.nodeId ==> e.nodeId == NO_ID
    ensures var d := Target(nodes, i, e, sender, p); d != -1 ==> FlagsOf(Members(nodes, i, consist, sender, p), d).None?
  {
    hide Target, Members, FlagsOf;
    var d := Target(nodes, i, e, sender, p);
    TargetId(nodes, i, e, sender, p);
    if d != -1 && FlagsOf(Members(nodes, i, consist, sender, p), d).Some? {
      MemberIds(nodes, i, consist, sender, p, d);
    }
  }

  /** A member acts on the command and passes it no further. */
  lemma MemberActs(s: State, from: u16, d: nat, q: seq<u8>)
    requires d < |s.nodes| && Forwards(q) && Listener(q)
    ensures ToMember(s, from, d, q) == State(
              s.nodes[d := ActedNode(s.nodes[d], q)], s.calls + CallsAt(s.nodes[d], q),
              s.sent + [Message(from, s.nodes[d].alias, false, q)])
  {
    hide Acted, Calls;
  }

  lemma OneShare(nodes: seq<Node>, after: seq<Node>, members: seq<Member>, m: Member, p: seq<u8>)
    requires p != [] && Shared(nodes, after, members, p) && m.node < |nodes| && FlagsOf(members, m.node).None?
    ensures after[m.node] == nodes[m.node]
    ensures Shared(nodes, after[m.node := ActedNode(nodes[m.node], Passed(p, m.flags))], members + [m], p)
  {
    hide FlagsOf, ActedNode, Passed;
    forall j | 0 <= j < |nodes|
      ensures FlagsOf(members + [m], j) == if m.node == j then Some(m.flags) else FlagsOf(members, j)
    {
      LastFlags(members, m, j);
    }
  }

  lemma OneCall(nodes: seq<Node>, from: u16, members: seq<Member>, m: Member, p: seq<u8>)
    requires p != [] && m.node < |nodes| && forall k :: 0 <= k < |members| ==> members[k].node < |nodes|
    ensures MemberCalls(nodes, members + [m], p) == MemberCalls(nodes, members, p) + CallsAt(nodes[m.node], Passed(p, m.flags))
    ensures MemberMessages(nodes, from, members + [m], p) == MemberMessages(nodes, from, members, p)
            + [Message(from, nodes[m.node].alias, false, Passed(p, m.flags))]
  {
    hide CallsAt, Passed;
    assert (members + [m])[..|members|] == members;
  }

  /** The state after the members have had their shares. */
  ghost predicate AllShared(s: State, r: State, from: u16, members: seq<Member>, p: seq<u8>)
    requires p != [] && forall m :: 0 <= m < |members| ==> members[m].node < |s.nodes|
  {
    && Shared(s.nodes, r.nodes, members, p)
    && r.calls == s.calls + MemberCalls(s.nodes, members, p)
    && r.sent == s.sent + MemberMessages(s.nodes, from, members, p)
  }

  lemma {:induction false} NextShare(s: State, b: State, from: u16, members: seq<Member>, m: Member, p: seq<u8>)
    requires Forwards(p) && (forall k :: 0 <= k < |members| ==> members[k].node < |s.nodes|) && m.node < |s.nodes|
    requires AllShared(s, b, from, members, p) && FlagsOf(members, m.node).None?
    ensures AllShared(s, ToMember(b, from, m.node, Passed(p, m.flags)), from, members + [m], p)
  {
    hide Shared, MemberCalls, MemberMessages, ToMember, FlagsOf, CallsAt, ActedNode, Passed, Dispatched;
    var q := Passed(p, m.flags);
    SameAfter(s, b, from, members, p);
    OneShare(s.nodes, b.nodes, members, m, p);
    OneCall(s.nodes, from, members, m, p);
    MemberActs(b, from, m.node, q);
  }

  lemma {:induction false} PassedOnShares(s: State, i: nat, sender: u16, p: seq<u8>, k: nat)
    requires Forwards(p) && !Listener(p) && i < |s.nodes| && s.nodes[i].train.Some?
    requires k <= |s.nodes[i].train.value.consist| && Distinct(s.nodes[i].train.value.consist, s.nodes[i].id)
    ensures var members := Members(s.nodes, i, s.nodes[i].train.value.consist[..k], sender, p);
      AllShared(s, PassedOn(s, i, sender, p, k), s.nodes[i].alias, members, p)
    decreases k
  {
    hide Target, Members, AllShared, ToMember, FlagsOf, Passed;
    var consist := s.nodes[i].train.value.consist;
    if k == 0 {
      NoShares(s, i, sender, p);
      assert consist[..0] == [];
    } else {
      PassedOnShares(s, i, sender, p, k - 1);
      var b, e, front := PassedOn(s, i, sender, p, k - 1), consist[k - 1], consist[..k - 1];
      var members := Members(s.nodes, i, front, sender, p);
      SameAfter(s, b, s.nodes[i].alias, members, p);
      TargetSame(s.nodes, b.nodes, i, e, sender, p);
      assert consist[..k] == front + [e];
      LastMember(s.nodes, i, front, e, sender, p);
      NewMember(s.nodes, i, front, e, sender, p);
      var d := Target(s.nodes, i, e, sender, p);
      if d != -1 {
        NextShare(s, b, s.nodes[i].alias, members, Member(d, e.flags), p);
      } else {
        assert Members(s.nodes, i, consist[..k], sender, p) == members;
      }
    }
  }

  lemma NoShares(s: State, i: nat, sender: u16, p: seq<u8>)
    requires p != []
    ensures Members(s.nodes, i, [], sender, p) == []
    ensures AllShared(s, s, if i < |s.nodes| then s.nodes[i].alias else 0, [], p)
  {
  }

  lemma SameAfter(s: State, b: State, from: u16, members: seq<Member>, p: seq<u8>)
    requires p != [] && (forall k :: 0 <= k < |members| ==> members[k].node < |s.nodes|) && AllShared(s, b, from, members, p)
    ensures |b.nodes| == |s.nodes|
    ensures forall j :: 0 <= j < |s.nodes| ==> b.nodes[j].id == s.nodes[j].id && b.nodes[j].alias == s.nodes[j].alias
  {
    hide MemberCalls, MemberMessages;
    SharedSame(s.nodes, b.nodes, members, p);
  }

  lemma {:induction false} MembersSame(nodes: seq<Node>, after: seq<Node>, i: nat, consist: seq<Entry>, sender: u16, p: seq<u8>)
    requires p != [] && |after| == |nodes|
    requires forall j :: 0 <= j < |nodes| ==> after[j].id == nodes[j].id && after[j].alias == nodes[j].alias
    ensures Members(after, i, consist, sender, p) == Members(nodes, i, consist, sender, p)
    decreases |consist|
  {
    hide Target;
    if consist != [] {
      MembersSame(nodes, after, i, consist[..|consist| - 1], sender, p);
      TargetSame(nodes, after, i, consist[|consist| - 1], sender, p);
    }
  }

  lemma {:induction false} CallsSame(nodes: seq<Node>, after: seq<Node>, from: u16, members: seq<Member>, p: seq<u8>)
    requires p != [] && |after| == |nodes| && forall m :: 0 <= m < |members| ==> members[m].node < |nodes|
    requires forall m :: 0 <= m < |members| ==> after[members[m].node] == nodes[members[m].node]
    ensures MemberCalls(after, members, p) == MemberCalls(nodes, members, p)
    ensures MemberMessages(after, from, members, p) == MemberMessages(nodes, from, members, p)
    decreases |members|
  {
    hide CallsAt, Passed;
    if members != [] {
      CallsSame(nodes, after, from, members[..|members| - 1], p);
    }
  }

  lemma {:induction false} NotSelf(nodes: seq<Node>, i: nat, consist: seq<Entry>, sender: u16, p: seq<u8>, m: nat)
    requires p != [] && m < |Members(nodes, i, consist, sender, p)|
    ensures Members(nodes, i, consist, sender, p)[m].node != i
    decreases |consist|
  {
    hide Target;
    TargetId(nodes, i, consist[|consist| - 1], sender, p);
    if m < |Members(nodes, i, consist[..|consist| - 1], sender, p)| {
      NotSelf(nodes, i, consist[..|consist| - 1], sender, p, m);
    }
  }

  /** The members of the train's consist that a command is passed to. */
  function ConsistOf(s: State, i: nat, sender: u16, p: seq<u8>): (r: seq<Member>)
    requires i < |s.nodes| && s.nodes[i].train.Some? && p != []
    ensures forall m :: 0 <= m < |r| ==> r[m].node < |s.nodes|
  {
    Members(s.nodes, i, s.nodes[i].train.value.consist, sender, p)
  }

  /** A command from a throttle, whatever the graph of consists looks like: the train acts on it, each member
      acts on its share of it, every hook is called once for each in slot order, every member is sent its share,
      and no other node changes. */
  lemma CommandReaches(s: State, i: nat, sender: u16, p: seq<u8>)
    requires Forwards(p) && !Listener(p) && i < |s.nodes| && s.nodes[i].train.Some?
    requires Distinct(s.nodes[i].train.value.consist, s.nodes[i].id)
    ensures var r, members := Dispatched(s, i, sender, p), ConsistOf(s, i, sender, p);
      && (forall j :: 0 <= j < |s.nodes| ==>
            r.nodes[j] == if j == i then ActedNode(s.nodes[i], p) else Share(s.nodes[j], FlagsOf(members, j), p))
      && r.calls == s.calls + Calls(s.nodes[i].train.value, p) + MemberCalls(s.nodes, members, p)
      && r.sent == s.sent + MemberMessages(s.nodes, s.nodes[i].alias, members, p)
  {
    hide Members, PassedOn, FlagsOf, MemberCalls, MemberMessages, Passed, Calls;
    var t := Applied(s, i, p);
    var n := s.nodes[i];
    var consist := n.train.value.consist;
    ActedKeepsConsist(n.train.value, p);
    hide Acted;
    assert t.nodes[i] == ActedNode(n, p);
    ActedSame(n, p);
    PassedOnShares(t, i, sender, p, |consist|);
    assert consist[..|consist|] == consist;
    MembersSame(s.nodes, t.nodes, i, consist, sender, p);
    var members := Members(s.nodes, i, consist, sender, p);
    forall m | 0 <= m < |members|
      ensures members[m].node != i
    {
      NotSelf(s.nodes, i, consist, sender, p, m);
    }
    CallsSame(s.nodes, t.nodes, n.alias, members, p);
    if FlagsOf(members, i).Some? {
      MemberIds(s.nodes, i, consist, sender, p, i);
    }
  }

  lemma ActedKeepsConsist(t: Train, p: seq<u8>)
    ensures Acted(t, p).consist == t.consist
    ensures Acted(t, p).received == t.received && Acted(t, p).receivedFrom == t.receivedFrom
    ensures Acted(t, p).receiving == t.receiving
  {
  }

  /** A command that has been passed on goes no further. */
  lemma ListenerStops(s: State, i: nat, sender: u16, p: seq<u8>)
    requires Forwards(p) && Listener(p) && i < |s.nodes| && s.nodes[i].train.Some?
    ensures Dispatched(s, i, sender, p) == Applied(s, i, p)
  {
  }

  // ---- who is a member -------------------------------------------------------------------------

  /** Slot `e` of node `i`'s consist names node `j`, which is neither the train itself nor the sender. */
  ghost predicate Names(nodes: seq<Node>, i: nat, e: Entry, sender: u16, j: nat) {
    && j < |nodes| && e.nodeId != NO_ID && Find(nodes, e.nodeId, 0) == j
    && j != i && nodes[j].alias != sender
  }

  /** A member gets a command exactly when a slot names it and the slot's links let the command through. */
  lemma {:induction false} IsMember(nodes: seq<Node>, i: nat, consist: seq<Entry>, sender: u16, p: seq<u8>, j: nat, f: u8)
    requires p != [] && Distinct(consist, NO_ID)
    ensures FlagsOf(Members(nodes, i, consist, sender, p), j) == Some(f) <==>
            exists k :: 0 <= k < |consist| && Names(nodes, i, consist[k], sender, j)
              && ShouldForward(p, consist[k].flags) && consist[k].flags == f
    decreases |consist|
  {
    hide ShouldForward, Find;
    if consist != [] {
      var front, e := consist[..|consist| - 1], consist[|consist| - 1];
      assert forall k :: 0 <= k < |front| ==> front[k] == consist[k];
      IsMember(nodes, i, front, sender, p, j, f);
      LastMember(nodes, i, front, e, sender, p);
      assert front + [e] == consist;
      LastFlags(Members(nodes, i, front, sender, p), Member(j, e.flags), j);
      var d := Target(nodes, i, e, sender, p);
      if d != -1 {
        LastFlags(Members(nodes, i, front, sender, p), Member(d, e.flags), j);
        NewMember(nodes, i, front, e, sender, p);
      }
      hide FlagsOf, Members, Distinct;
      if d == j {
        OnlyHere(nodes, i, consist, sender, j);
      }
    }
  }

  /** No two slots name the same node. */
  lemma OnlyHere(nodes: seq<Node>, i: nat, consist: seq<Entry>, sender: u16, j: nat)
    requires Distinct(consist, NO_ID) && consist != [] && Names(nodes, i, consist[|consist| - 1], sender, j)
    ensures forall k :: 0 <= k < |consist| - 1 ==> !Names(nodes, i, consist[k], sender, j)
  {
    forall k | 0 <= k < |consist| - 1
      ensures !Names(nodes, i, consist[k], sender, j)
    {
      assert nodes[j].id == consist[|consist| - 1].nodeId;
    }
  }

  /** No member is listed twice. */
  lemma {:induction false} MembersDistinct(nodes: seq<Node>, i: nat, consist: seq<Entry>, sender: u16, p: seq<u8>)
    requires p != [] && Distinct(consist, NO_ID)
    ensures forall a, b :: 0 <= a < b < |Members(nodes, i, consist, sender, p)| ==>
              Members(nodes, i, consist, sender, p)[a].node != Members(nodes, i, consist, sender, p)[b].node
    decreases |consist|
  {
    hide Target, FlagsOf;
    if consist != [] {
      var front, e := consist[..|consist| - 1], consist[|consist| - 1];
      MembersDistinct(nodes, i, front, sender, p);
      NewMember(nodes, i, front, e, sender, p);
      var members := Members(nodes, i, front, sender, p);
      var d := Target(nodes, i, e, sender, p);
      if d != -1 {
        forall a | 0 <= a < |members|
          ensures members[a].node != d
        {
          if members[a].node == d {
            Listed(members, a);
          }
        }
      }
    }
  }

  lemma {:induction false} Listed(members: seq<Member>, a: nat)
    requires a < |members|
    ensures FlagsOf(members, members[a].node).Some?
    decreases |members|
  {
    if a != |members| - 1 {
      Listed(members[..|members| - 1], a);
    }
  }

  // ---- the commands themselves --------------------------------------------------------------------

  function Reversed(v: u16): u16 { if v < 0x8000 then v + 0x8000 else v - 0x8000 }

  /** A slot that names `j`, if there is one. */
  ghost predicate Follows(s: State, i: nat, sender: u16, j: nat, e: Entry)
    requires i < |s.nodes| && s.nodes[i].train.Some?
  {
    e in s.nodes[i].train.value.consist && Names(s.nodes, i, e, sender, j)
  }

  lemma FlippedSpeed(hi: u8, lo: u8)
    ensures Pair(Flip(hi), lo) == Reversed(Pair(hi, lo))
  {
  }

  lemma PassedSpeed(hi: u8, lo: u8, flags: u8)
    ensures Passed([SET_SPEED, hi, lo], flags) == [0x80, if Reverse(flags) then Flip(hi) else hi, lo]
  {
    var p: seq<u8> := [SET_SPEED, hi, lo];
    assert p[1..] == [hi, lo];
    var marked: seq<u8> := [0x80] + [hi, lo];
    assert marked == [0x80, hi, lo];
    assert marked[1 := Flip(hi)] == [0x80, Flip(hi), lo];
  }

  lemma MemberFlags(s: State, i: nat, sender: u16, p: seq<u8>, j: nat, e: Entry)
    requires i < |s.nodes| && s.nodes[i].train.Some? && p != [] && Distinct(s.nodes[i].train.value.consist, s.nodes[i].id)
    ensures Follows(s, i, sender, j, e) && ShouldForward(p, e.flags) ==> FlagsOf(ConsistOf(s, i, sender, p), j) == Some(e.flags)
    ensures FlagsOf(ConsistOf(s, i, sender, p), j).Some? ==> exists x :: Follows(s, i, sender, j, x) && ShouldForward(p, x.flags)
  {
    hide Members, FlagsOf, ShouldForward, Names;
    var consist := s.nodes[i].train.value.consist;
    assert Distinct(consist, NO_ID);
    IsMember(s.nodes, i, consist, sender, p, j, e.flags);
    match FlagsOf(ConsistOf(s, i, sender, p), j)
    case None =>
    case Some(f) => IsMember(s.nodes, i, consist, sender, p, j, f);
  }

  /** Set Speed: the train takes the speed, each other local train of its consist takes it once with the sign
      flipped exactly if its slot says reversed, and no other train changes. */
  lemma SetSpeedReaches(s: State, i: nat, sender: u16, hi: u8, lo: u8, j: nat, e: Entry)
    requires i < |s.nodes| && s.nodes[i].train.Some? && Distinct(s.nodes[i].train.value.consist, s.nodes[i].id)
    requires j < |s.nodes| && s.nodes[j].train.Some?
    ensures var p: seq<u8>, v := [SET_SPEED, hi, lo], Pair(hi, lo);
      var t, r := s.nodes[j].train.value, Dispatched(s, i, sender, p).nodes[j].train;
      && (j == i ==> r == Some(t.(speed := v, emergency := false)))
      && (Follows(s, i, sender, j, e) ==>
           r == Some(t.(speed := if Reverse(e.flags) then Reversed(v) else v, emergency := false)))
      && (j != i && !(exists x :: Follows(s, i, sender, j, x)) ==> r == Some(t))
  {
    hide Dispatched, ConsistOf, FlagsOf, MemberCalls, MemberMessages, Calls, Passed, Follows;
    var p: seq<u8> := [SET_SPEED, hi, lo];
    CommandReaches(s, i, sender, p);
    MemberFlags(s, i, sender, p, j, e);
    PassedSpeed(hi, lo, e.flags);
    FlippedSpeed(hi, lo);
    NotOneself(s, i, sender, e);
  }

  lemma NotOneself(s: State, i: nat, sender: u16, e: Entry)
    requires i < |s.nodes| && s.nodes[i].train.Some?
    ensures !Follows(s, i, sender, i, e)
  {
  }

  /** Set Function: a member follows F0 or the other functions exactly if its slot links them. */
  lemma SetFunctionReaches(s: State, i: nat, sender: u16, p: seq<u8>, j: nat, e: Entry)
    requires i < |s.nodes| && s.nodes[i].train.Some? && Distinct(s.nodes[i].train.value.consist, s.nodes[i].id)
    requires |p| == 6 && p[0] == SET_FUNCTION && FunctionOf(p) <= MAX_FUNCTION
    requires j < |s.nodes| && s.nodes[j].train.Some?
    ensures var f, on, t := FunctionOf(p), p[4] != 0 || p[5] != 0, s.nodes[j].train.value;
      var r := Dispatched(s, i, sender, p).nodes[j].train;
      var switched := t.(functions := if on then t.functions + {f} else t.functions - {f});
      && (j == i ==> r == Some(switched))
      && (Follows(s, i, sender, j, e) && (if f == 0 then LinksF0(e.flags) else LinksFn(e.flags)) ==> r == Some(switched))
      && (j != i && !(exists x :: Follows(s, i, sender, j, x) && (if f == 0 then LinksF0(x.flags) else LinksFn(x.flags))) ==> r == Some(t))
  {
    hide Dispatched, ConsistOf, FlagsOf, MemberCalls, MemberMessages, Calls, Follows;
    CommandReaches(s, i, sender, p);
    MemberFlags(s, i, sender, p, j, e);
    PassedFunction(p, e.flags);
    match FlagsOf(ConsistOf(s, i, sender, p), j)
    case None =>
    case Some(f) => PassedFunction(p, f);
    NotOneself(s, i, sender, e);
  }

  lemma PassedFunction(p: seq<u8>, flags: u8)
    requires |p| == 6 && p[0] == SET_FUNCTION
    ensures Passed(p, flags) == [0x81, p[1], p[2], p[3], p[4], p[5]]
  {
    assert p[1..] == [p[1], p[2], p[3], p[4], p[5]];
  }

  // ---- what the command station is told --------------------------------------------------------------

  /** One throttle call for each member that is a train, in slot order: its own address, and the speed with the sign
      flipped if its slot says reversed; a speed with its sign bit clear is forward. */
  function MemberThrottles(nodes: seq<Node>, members: seq<Member>, v: u16): seq<Call>
    requires forall m :: 0 <= m < |members| ==> members[m].node < |nodes|
  {
    if members == [] then []
    else
      var m := members[|members| - 1];
      var w := if Reverse(m.flags) then Reversed(v) else v;
      MemberThrottles(nodes, members[..|members| - 1], v)
        + match nodes[m.node].train
          case None => []
          case Some(t) => [Throttle(t.address, t.isLong, w, w < 0x8000)]
  }

  function MemberSwitches(nodes: seq<Node>, members: seq<Member>, fn: nat, on: bool): seq<Call>
    requires forall m :: 0 <= m < |members| ==> members[m].node < |nodes|
  {
    if members == [] then []
    else
      MemberSwitches(nodes, members[..|members| - 1], fn, on)
        + match nodes[members[|members| - 1].node].train
          case None => []
          case Some(t) => [Function(t.address, t.isLong, fn, on)]
  }

  function MemberStops(nodes: seq<Node>, members: seq<Member>): seq<Call>
    requires forall m :: 0 <= m < |members| ==> members[m].node < |nodes|
  {
    if members == [] then []
    else
      MemberStops(nodes, members[..|members| - 1])
        + match nodes[members[|members| - 1].node].train
          case None => []
          case Some(t) => [Stop(t.address, t.isLong)]
  }

  lemma SpeedCall(t: Train, b: u8, hi: u8, lo: u8)
    requires b % 0x80 == SET_SPEED
    ensures Calls(t, [b, hi, lo]) == [Throttle(t.address, t.isLong, Pair(hi, lo), Pair(hi, lo) < 0x8000)]
  {
  }

  lemma {:induction false} SpeedCalls(nodes: seq<Node>, members: seq<Member>, hi: u8, lo: u8)
    requires forall m :: 0 <= m < |members| ==> members[m].node < |nodes|
    ensures MemberCalls(nodes, members, [SET_SPEED, hi, lo]) == MemberThrottles(nodes, members, Pair(hi, lo))
    decreases |members|
  {
    hide Passed, Calls, Reversed, Pair, Flip, Reverse;
    if members != [] {
      var m := members[|members| - 1];
      SpeedCalls(nodes, members[..|members| - 1], hi, lo);
      PassedSpeed(hi, lo, m.flags);
      FlippedSpeed(hi, lo);
      match nodes[m.node].train
      case None =>
      case Some(t) => SpeedCall(t, 0x80, if Reverse(m.flags) then Flip(hi) else hi, lo);
    }
  }

  lemma {:induction false} MessageAt(nodes: seq<Node>, from: u16, members: seq<Member>, p: seq<u8>, k: nat)
    requires p != [] && (forall m :: 0 <= m < |members| ==> members[m].node < |nodes|) && k < |members|
    ensures |MemberMessages(nodes, from, members, p)| == |members|
    ensures MemberMessages(nodes, from, members, p)[k]
      == Message(from, nodes[members[k].node].alias, false, Passed(p, members[k].flags))
    decreases |members|
  {
    hide Passed;
    var n := |members| - 1;
    if 0 < n {
      MessageAt(nodes, from, members[..n], p, if k < n then k else 0);
    }
  }

  /** Set Speed: the command station is told of the train's speed and then of each member's, with the sign flipped
      exactly if its slot says reversed, and each member is sent the command in the name of the train. */
  lemma SetSpeedTells(s: State, i: nat, sender: u16, hi: u8, lo: u8)
    requires i < |s.nodes| && s.nodes[i].train.Some? && Distinct(s.nodes[i].train.value.consist, s.nodes[i].id)
    ensures var p: seq<u8>, v, t := [SET_SPEED, hi, lo], Pair(hi, lo), s.nodes[i].train.value;
      var r, members := Dispatched(s, i, sender, p), ConsistOf(s, i, sender, p);
      && r.calls == s.calls + [Throttle(t.address, t.isLong, v, v < 0x8000)] + MemberThrottles(s.nodes, members, v)
      && |r.sent| == |s.sent| + |members| && r.sent[..|s.sent|] == s.sent
      && (forall k :: 0 <= k < |members| ==> r.sent[|s.sent|..][k] == Message(s.nodes[i].alias, s.nodes[members[k].node].alias,
            false, [0x80, if Reverse(members[k].flags) then Flip(hi) else hi, lo]))
  {
    hide Dispatched, Members, MemberCalls, MemberThrottles, Calls, Passed, Acted, Flip, Pair, FlagsOf, ActedNode, Share;
    var p: seq<u8> := [SET_SPEED, hi, lo];
    CommandReaches(s, i, sender, p);
    var members := ConsistOf(s, i, sender, p);
    SpeedCall(s.nodes[i].train.value, SET_SPEED, hi, lo);
    SpeedCalls(s.nodes, members, hi, lo);
    NoMessages(s.nodes, s.nodes[i].alias, members, p);
    var r := Dispatched(s, i, sender, p);
    assert r.sent[|s.sent|..] == MemberMessages(s.nodes, s.nodes[i].alias, members, p);
    hide MemberMessages, ConsistOf;
    forall k | 0 <= k < |members|
      ensures r.sent[|s.sent|..][k] == Message(s.nodes[i].alias, s.nodes[members[k].node].alias,
        false, [0x80, if Reverse(members[k].flags) then Flip(hi) else hi, lo])
    {
      MessageAt(s.nodes, s.nodes[i].alias, members, p, k);
      PassedSpeed(hi, lo, members[k].flags);
    }
  }

  lemma NoMessages(nodes: seq<Node>, from: u16, members: seq<Member>, p: seq<u8>)
    requires p != [] && forall m :: 0 <= m < |members| ==> members[m].node < |nodes|
    ensures |MemberMessages(nodes, from, members, p)| == |members|
  {
    if members != [] {
      MessageAt(nodes, from, members, p, 0);
    }
  }

  lemma SwitchCall(t: Train, p: seq<u8>)
    requires |p| == 6 && p[0] % 0x80 == SET_FUNCTION && FunctionOf(p) <= MAX_FUNCTION
    ensures Calls(t, p) == [Function(t.address, t.isLong, FunctionOf(p), Pair(p[4], p[5]) != 0)]
  {
  }

  lemma {:induction false} SwitchCalls(nodes: seq<Node>, members: seq<Member>, p: seq<u8>)
    requires forall m :: 0 <= m < |members| ==> members[m].node < |nodes|
    requires |p| == 6 && p[0] == SET_FUNCTION && FunctionOf(p) <= MAX_FUNCTION
    ensures MemberCalls(nodes, members, p) == MemberSwitches(nodes, members, FunctionOf(p), Pair(p[4], p[5]) != 0)
    decreases |members|
  {
    hide Passed, Calls;
    if members != [] {
      var m := members[|members| - 1];
      SwitchCalls(nodes, members[..|members| - 1], p);
      PassedFunction(p, m.flags);
      var q: seq<u8> := [0x81, p[1], p[2], p[3], p[4], p[5]];
      assert FunctionOf(q) == FunctionOf(p);
      match nodes[m.node].train
      case None =>
      case Some(t) => SwitchCall(t, q);
    }
  }

  /** The functions a decoder has are the ones whose number fits the last byte, up to 68. */
  lemma FunctionNumber(p: seq<u8>)
    requires 4 <= |p|
    ensures FunctionOf(p) <= MAX_FUNCTION <==> p[1] == 0 && p[2] == 0 && p[3] <= 68
    ensures FunctionOf(p) <= MAX_FUNCTION ==> FunctionOf(p) == p[3]
  {
  }

  /** Set Function: the command station is told to switch the function of the train and of each member that links it,
      on exactly if the value is not zero. */
  lemma SetFunctionTells(s: State, i: nat, sender: u16, p: seq<u8>)
    requires i < |s.nodes| && s.nodes[i].train.Some? && Distinct(s.nodes[i].train.value.consist, s.nodes[i].id)
    requires |p| == 6 && p[0] == SET_FUNCTION && FunctionOf(p) <= MAX_FUNCTION
    ensures var f, on, t := FunctionOf(p), Pair(p[4], p[5]) != 0, s.nodes[i].train.value;
      Dispatched(s, i, sender, p).calls == s.calls + [Function(t.address, t.isLong, f, on)]
        + MemberSwitches(s.nodes, ConsistOf(s, i, sender, p), f, on)
  {
    hide Dispatched, Members, MemberCalls, MemberSwitches, Calls, Passed, Acted, FlagsOf, ActedNode, Share, MemberMessages;
    CommandReaches(s, i, sender, p);
    SwitchCall(s.nodes[i].train.value, p);
    SwitchCalls(s.nodes, ConsistOf(s, i, sender, p), p);
  }

  lemma StopActs(t: Train, p: seq<u8>)
    requires p != [] && Sub(p) == EMERGENCY_STOP
    ensures Calls(t, p) == [Stop(t.address, t.isLong)]
    ensures Acted(t, p) == t.(speed := if 0x8000 <= t.speed then 0x8000 else 0, emergency := true)
  {
  }

  lemma {:induction false} StopCalls(nodes: seq<Node>, members: seq<Member>, p: seq<u8>)
    requires p != [] && Sub(p) == EMERGENCY_STOP && forall m :: 0 <= m < |members| ==> members[m].node < |nodes|
    ensures MemberCalls(nodes, members, p) == MemberStops(nodes, members)
    decreases |members|
  {
    hide Passed, Calls;
    if members != [] {
      var m := members[|members| - 1];
      StopCalls(nodes, members[..|members| - 1], p);
      match nodes[m.node].train
      case None =>
      case Some(t) => StopActs(t, Passed(p, m.flags));
    }
  }

  /** Emergency Stop: the command station is told to stop the train and each other local train of its consist, once
      each; their speeds become zero in the direction they had, and they are marked as stopped. No other train changes. */
  lemma EmergencyStopReaches(s: State, i: nat, sender: u16, p: seq<u8>, j: nat, e: Entry)
    requires i < |s.nodes| && s.nodes[i].train.Some? && Distinct(s.nodes[i].train.value.consist, s.nodes[i].id)
    requires p == [EMERGENCY_STOP] && j < |s.nodes| && s.nodes[j].train.Some?
    ensures var t, r := s.nodes[j].train.value, Dispatched(s, i, sender, p);
      var stopped := t.(speed := if 0x8000 <= t.speed then 0x8000 else 0, emergency := true);
      && (j == i || Follows(s, i, sender, j, e) ==> r.nodes[j].train == Some(stopped))
      && (j != i && !(exists x :: Follows(s, i, sender, j, x)) ==> r.nodes[j].train == Some(t))
    ensures var t := s.nodes[i].train.value;
      Dispatched(s, i, sender, p).calls == s.calls + [Stop(t.address, t.isLong)] + MemberStops(s.nodes, ConsistOf(s, i, sender, p))
  {
    hide Dispatched, ConsistOf, FlagsOf, MemberCalls, MemberStops, MemberMessages, Calls, Acted, Passed, Follows;
    CommandReaches(s, i, sender, p);
    MemberFlags(s, i, sender, p, j, e);
    var t := s.nodes[j].train.value;
    StopActs(t, p);
    StopActs(s.nodes[i].train.value, p);
    StopCalls(s.nodes, ConsistOf(s, i, sender, p), p);
    match FlagsOf(ConsistOf(s, i, sender, p), j)
    case None =>
    case Some(f) => StopActs(t, Passed(p, f));
  }

  /** A command that has been passed on to a train acts on that train alone, and the command station is told once. */
  lemma ListenerActs(s: State, i: nat, sender: u16, hi: u8, lo: u8)
    requires i < |s.nodes| && s.nodes[i].train.Some?
    ensures var t, v := s.nodes[i].train.value, Pair(hi, lo);
      Dispatched(s, i, sender, [0x80, hi, lo])
        == s.(nodes := s.nodes[i := s.nodes[i].(train := Some(t.(speed := v, emergency := false)))],
              calls := s.calls + [Throttle(t.address, t.isLong, v, v < 0x8000)])
    ensures var t := s.nodes[i].train.value;
      Dispatched(s, i, sender, [0x82])
        == s.(nodes := s.nodes[i := s.nodes[i].(train := Some(t.(speed := if 0x8000 <= t.speed then 0x8000 else 0, emergency := true)))],
              calls := s.calls + [Stop(t.address, t.isLong)])
  {
    ListenerStops(s, i, sender, [0x80, hi, lo]);
    ListenerStops(s, i, sender, [0x82]);
    SpeedCall(s.nodes[i].train.value, 0x80, hi, lo);
    StopActs(s.nodes[i].train.value, [0x82]);
    hide Dispatched, Calls, Pair;
  }

  /** A command that is too short, or for a function that no decoder has, changes no train and is told to nobody. */
  lemma TooShort(s: State, i: nat, sender: u16, p: seq<u8>)
    requires i < |s.nodes| && s.nodes[i].train.Some? && Distinct(s.nodes[i].train.value.consist, s.nodes[i].id)
    requires Forwards(p) && !Listener(p)
    requires Short(p)
    ensures Dispatched(s, i, sender, p).nodes == s.nodes && Dispatched(s, i, sender, p).calls == s.calls
  {
    hide Dispatched, MemberCalls, MemberMessages, FlagsOf, Members, Calls, Acted, Passed;
    CommandReaches(s, i, sender, p);
    var members := ConsistOf(s, i, sender, p);
    ShortActs(s.nodes[i].train.value, p);
    forall j | 0 <= j < |s.nodes|
      ensures Dispatched(s, i, sender, p).nodes[j] == s.nodes[j]
    {
      if s.nodes[j].train.Some? && FlagsOf(members, j).Some? {
        PassedShort(p, FlagsOf(members, j).value);
        ShortActs(s.nodes[j].train.value, Passed(p, FlagsOf(members, j).value));
      }
    }
    ShortCalls(s.nodes, members, p);
  }

  predicate Short(p: seq<u8>) {
    p != [] && ((Sub(p) == SET_SPEED && |p| < 3) || (Sub(p) == SET_FUNCTION && (|p| < 6 || MAX_FUNCTION < FunctionOf(p))))
  }

  lemma ShortActs(t: Train, p: seq<u8>)
    requires Short(p)
    ensures Acted(t, p) == t && Calls(t, p) == []
  {
  }

  lemma PassedShort(p: seq<u8>, flags: u8)
    requires Short(p)
    ensures Short(Passed(p, flags))
  {
  }

  lemma {:induction false} ShortCalls(nodes: seq<Node>, members: seq<Member>, p: seq<u8>)
    requires Short(p) && forall m :: 0 <= m < |members| ==> members[m].node < |nodes|
    ensures MemberCalls(nodes, members, p) == []
    decreases |members|
  {
    hide Passed, Calls, Short;
    if members != [] {
      var m := members[|members| - 1];
      ShortCalls(nodes, members[..|members| - 1], p);
      PassedShort(p, m.flags);
      match nodes[m.node].train
      case None =>
      case Some(t) => ShortActs(t, Passed(p, m.flags));
    }
  }

  // ---- consists over runs -----------------------------------------------------------------------

  /** Every train's consist lists each member once, and never the train itself. */
  ghost predicate AllDistinct(nodes: seq<Node>) {
    forall j :: 0 <= j < |nodes| && nodes[j].train.Some? ==> nodes[j].id != NO_ID && Distinct(nodes[j].train.value.consist, nodes[j].id)
  }

  lemma ConfigureKeeps(s: State, i: nat, sender: u16, p: seq<u8>)
    requires AllDistinct(s.nodes) && i < |s.nodes| && s.nodes[i].train.Some? && p != []
    ensures AllDistinct(Configured(s, i, sender, p).nodes)
  {
    hide Attached, Detached, Distinct, ConsistReply;
    if 9 <= |p| {
      var n := s.nodes[i];
      AttachKeeps(n.train.value.consist, n.id, p[3..9], p[2]);
      DetachKeeps(n.train.value.consist, n.id, p[3..9]);
    }
  }

  lemma ActKeeps(n: Node, flags: Option<u8>, p: seq<u8>)
    requires p != []
    ensures Share(n, flags, p).id == n.id && ActedNode(n, p).id == n.id
    ensures Share(n, flags, p).train.Some? == n.train.Some? && ActedNode(n, p).train.Some? == n.train.Some?
    ensures n.train.Some? ==> Share(n, flags, p).train.value.consist == n.train.value.consist
                              && ActedNode(n, p).train.value.consist == n.train.value.consist
  {
    hide Acted, Passed;
    if n.train.Some? {
      ActedKeepsConsist(n.train.value, p);
      if flags.Some? {
        ActedKeepsConsist(n.train.value, Passed(p, flags.value));
      }
    }
  }

  /** Whatever command arrives at whichever train, from whoever, all consists stay well formed. */
  lemma DispatchKeeps(s: State, i: nat, sender: u16, p: seq<u8>)
    requires AllDistinct(s.nodes) && i < |s.nodes| && s.nodes[i].train.Some?
    ensures AllDistinct(Dispatched(s, i, sender, p).nodes)
  {
    if p == [] {
    } else if Forwards(p) {
      hide Distinct, ConsistOf, FlagsOf, Dispatched, Calls, MemberCalls, MemberMessages;
      if Listener(p) {
        ListenerStops(s, i, sender, p);
        ActedKeepsConsist(s.nodes[i].train.value, p);
        hide Acted;
      } else {
        CommandReaches(s, i, sender, p);
        var members := ConsistOf(s, i, sender, p);
        forall j | 0 <= j < |s.nodes|
          ensures Dispatched(s, i, sender, p).nodes[j].id == s.nodes[j].id
          ensures var t := Dispatched(s, i, sender, p).nodes[j].train;
            t.Some? == s.nodes[j].train.Some? && (t.Some? ==> t.value.consist == s.nodes[j].train.value.consist)
        {
          ActKeeps(s.nodes[j], FlagsOf(members, j), p);
        }
      }
    } else if Sub(p) == CONSIST_CONFIG {
      ConfigureKeeps(s, i, sender, p);
    }
  }

  // ---- frames -----------------------------------------------------------------------------------

  /** One addressed CAN frame for node `i`: at most six payload bytes, marked as first, last, both or neither. */
  datatype Fragment = Fragment(first: bool, last: bool, data: seq<u8>)

  function WithTrain(s: State, i: nat, t: Train): (r: State)
    requires i < |s.nodes|
    ensures |r.nodes| == |s.nodes| && r.nodes[i].train == Some(t)
  {
    s.(nodes := s.nodes[i := s.nodes[i].(train := Some(t))])
  }

  function Loaded(s: State, i: nat, src: u16, data: seq<u8>): (r: State)
    requires i < |s.nodes| && s.nodes[i].train.Some?
    ensures |r.nodes| == |s.nodes| && r.nodes[i].train.Some?
  {
    WithTrain(s, i, s.nodes[i].train.value.(receiving := true, receivedFrom := src, received := data))
  }

  function Cleared(s: State, i: nat): (r: State)
    requires i < |s.nodes|
    ensures |r.nodes| == |s.nodes|
  {
    if s.nodes[i].train.None? then s else WithTrain(s, i, s.nodes[i].train.value.(receiving := false, received := []))
  }

  function Framed(s: State, i: nat, src: u16, f: Fragment): (r: State)
    requires i < |s.nodes|
    ensures |r.nodes| == |s.nodes|
  {
    if s.nodes[i].train.None? then s
    else
      var t := s.nodes[i].train.value;
      if f.first && f.last then Dispatched(s, i, src, f.data)
      else if f.first then
        if RX_BUFFER < |f.data| then WithTrain(s, i, t.(receiving := false, receivedFrom := src, received := []))
        else Loaded(s, i, src, f.data)
      else if !t.receiving || t.receivedFrom != src then s
      else if RX_BUFFER < |t.received| + |f.data| then WithTrain(s, i, t.(receiving := false))
      else
        var more := Loaded(s, i, src, t.received + f.data);
        if f.last then
          Cleared(Dispatched(more, i, src, t.received + f.data), i)
        else more
  }

  lemma TrainStays(s: State, i: nat, sender: u16, p: seq<u8>)
    requires i < |s.nodes| && s.nodes[i].train.Some?
    ensures Dispatched(s, i, sender, p).nodes[i].train.Some?
  {
    if Forwards(p) && !Listener(p) {
      hide Target, Passed, Acted, Calls;
      var t := Applied(s, i, p);
      PassedOnSelf(t, i, sender, p, |t.nodes[i].train.value.consist|);
    }
  }

  /** A consist never passes a command back to the train it came through. */
  lemma {:induction false} PassedOnSelf(s: State, i: nat, sender: u16, p: seq<u8>, k: nat)
    requires Forwards(p) && !Listener(p) && i < |s.nodes| && s.nodes[i].train.Some?
    requires k <= |s.nodes[i].train.value.consist|
    ensures PassedOn(s, i, sender, p, k).nodes[i] == s.nodes[i]
    decreases k
  {
    hide Target, Passed, ToMember;
    if k != 0 {
      PassedOnSelf(s, i, sender, p, k - 1);
      var b, e := PassedOn(s, i, sender, p, k - 1), s.nodes[i].train.value.consist[k - 1];
      TargetId(b.nodes, i, e, sender, p);
      var d := Target(b.nodes, i, e, sender, p);
      if d != -1 {
        MemberActs(b, s.nodes[i].alias, d, Passed(p, e.flags));
      }
    }
  }

  lemma NoneYet(s: State, i: nat, sender: u16, p: seq<u8>)
    requires i < |s.nodes| && s.nodes[i].train.Some? && p != [] && !Listener(p)
    ensures PassedOn(s, i, sender, p, 0) == s
  {
  }

  lemma PassedOnNext(s: State, i: nat, sender: u16, p: seq<u8>, k: nat)
    requires i < |s.nodes| && s.nodes[i].train.Some? && k < |s.nodes[i].train.value.consist| && p != [] && !Listener(p)
    ensures var b, e := PassedOn(s, i, sender, p, k), s.nodes[i].train.value.consist[k];
      var d := Target(b.nodes, i, e, sender, p);
      PassedOn(s, i, sender, p, k + 1) == if d == -1 then b else ToMember(b, s.nodes[i].alias, d, Passed(p, e.flags))
  {
    hide Target, ToMember, Passed;
  }

  /** How an addressed message is cut into frames, from `offset` on. */
  function Cut(payload: seq<u8>, offset: nat): seq<Fragment>
    requires offset <= |payload|
    decreases |payload| - offset
  {
    var rest := |payload| - offset;
    if rest <= 6 then [Fragment(offset == 0, true, payload[offset..])]
    else [Fragment(offset == 0, false, payload[offset..offset + 6])] + Cut(payload, offset + 6)
  }

  function AllFramed(s: State, i: nat, src: u16, frames: seq<Fragment>): (r: State)
    requires i < |s.nodes|
    ensures |r.nodes| == |s.nodes|
    decreases |frames|
  {
    if frames == [] then s else AllFramed(Framed(s, i, src, frames[0]), i, src, frames[1..])
  }

  // ---- frames over runs -------------------------------------------------------------------------

  /** A frame that arrives at a node of this station. */
  datatype Arrival = Arrival(node: nat, src: u16, frame: Fragment)

  /** The station after a run of frames to any of its nodes from any senders, interleaved in any way. */
  function AfterTraffic(s: State, traffic: seq<Arrival>): State
    decreases |traffic|
  {
    if traffic == [] then s
    else
      var before, a := AfterTraffic(s, traffic[..|traffic| - 1]), traffic[|traffic| - 1];
      if a.node < |before.nodes| then Framed(before, a.node, a.src, a.frame) else before
  }

  lemma SameConsist(s: State, i: nat, t: Train)
    requires AllDistinct(s.nodes) && i < |s.nodes| && s.nodes[i].train.Some? && t.consist == s.nodes[i].train.value.consist
    ensures AllDistinct(WithTrain(s, i, t).nodes)
  {
    hide Distinct;
  }

  lemma FramedKeeps(s: State, i: nat, src: u16, f: Fragment)
    requires AllDistinct(s.nodes) && i < |s.nodes|
    ensures AllDistinct(Framed(s, i, src, f).nodes)
  {
    hide Dispatched, Distinct, AllDistinct, WithTrain;
    if s.nodes[i].train.Some? {
      var t := s.nodes[i].train.value;
      var all := t.received + f.data;
      DispatchKeeps(s, i, src, f.data);
      SameConsist(s, i, t.(receiving := false, receivedFrom := src, received := []));
      SameConsist(s, i, t.(receiving := true, receivedFrom := src, received := f.data));
      SameConsist(s, i, t.(receiving := false));
      SameConsist(s, i, t.(receiving := true, receivedFrom := src, received := all));
      var more := Loaded(s, i, src, all);
      DispatchKeeps(more, i, src, all);
      ClearedKeeps(Dispatched(more, i, src, all), i);
    }
  }

  lemma ClearedKeeps(s: State, i: nat)
    requires AllDistinct(s.nodes) && i < |s.nodes|
    ensures AllDistinct(Cleared(s, i).nodes)
  {
    hide AllDistinct, WithTrain;
    if s.nodes[i].train.Some? {
      SameConsist(s, i, s.nodes[i].train.value.(receiving := false, received := []));
    }
  }

  /** Nodes with consists all of empty slots. */
  ghost predicate Unattached(nodes: seq<Node>) {
    forall j :: 0 <= j < |nodes| && nodes[j].train.Some? ==>
      nodes[j].id != NO_ID && forall k :: 0 <= k < |nodes[j].train.value.consist| ==> nodes[j].train.value.consist[k].nodeId == NO_ID
  }

  /** From empty consists on, whatever frames have arrived at whichever nodes from whomever, every consist lists
      each member once and never its own train. */
  lemma {:induction false} TrafficKeeps(s: State, traffic: seq<Arrival>)
    requires Unattached(s.nodes)
    ensures AllDistinct(AfterTraffic(s, traffic).nodes)
    decreases |traffic|
  {
    hide Framed;
    if traffic != [] {
      var front, a := traffic[..|traffic| - 1], traffic[|traffic| - 1];
      TrafficKeeps(s, front);
      hide AllDistinct, Unattached;
      if a.node < |AfterTraffic(s, front).nodes| {
        FramedKeeps(AfterTraffic(s, front), a.node, a.src, a.frame);
      }
    }
  }

  // ---- senders side by side ---------------------------------------------------------------------

  /** Node `i` is putting together a message of `src`, or none. */
  ghost predicate HeldFor(s: State, i: nat, src: u16) {
    i < |s.nodes| && (s.nodes[i].train.Some? && s.nodes[i].train.value.receiving ==> s.nodes[i].train.value.receivedFrom == src)
  }

  lemma DispatchHolds(s: State, i: nat, sender: u16, p: seq<u8>)
    requires i < |s.nodes| && s.nodes[i].train.Some?
    ensures var r := Dispatched(s, i, sender, p).nodes[i].train;
      && r.Some? && r.value.receiving == s.nodes[i].train.value.receiving
      && r.value.receivedFrom == s.nodes[i].train.value.receivedFrom
  {
    if p == [] {
    } else if Forwards(p) {
      ActedKeepsConsist(s.nodes[i].train.value, p);
      if !Listener(p) {
        hide Acted, Calls;
        var t := Applied(s, i, p);
        PassedOnSelf(t, i, sender, p, |t.nodes[i].train.value.consist|);
      }
    }
  }

  lemma FrameHolds(s: State, i: nat, src: u16, f: Fragment)
    requires HeldFor(s, i, src)
    ensures HeldFor(Framed(s, i, src, f), i, src)
  {
    hide Dispatched;
    if s.nodes[i].train.Some? {
      var t := s.nodes[i].train.value;
      var all := t.received + f.data;
      DispatchHolds(s, i, src, f.data);
      DispatchHolds(Loaded(s, i, src, all), i, src, all);
    }
  }

  /** A frame that continues nobody's message changes nothing. */
  lemma StrayFrame(s: State, i: nat, src: u16, other: u16, f: Fragment)
    requires HeldFor(s, i, src) && other != src && !f.first
    ensures Framed(s, i, other, f) == s
  {
  }

  /** One sender's frames to a node among all those that arrive at it. */
  function FramesOf(traffic: seq<Arrival>, src: u16): seq<Fragment> {
    if traffic == [] then []
    else
      var a := traffic[|traffic| - 1];
      FramesOf(traffic[..|traffic| - 1], src) + if a.src == src then [a.frame] else []
  }

  lemma {:induction false} LastFrame(s: State, i: nat, src: u16, frames: seq<Fragment>, f: Fragment)
    requires i < |s.nodes|
    ensures AllFramed(s, i, src, frames + [f]) == Framed(AllFramed(s, i, src, frames), i, src, f)
    decreases |frames|
  {
    hide Framed;
    if frames == [] {
      assert frames + [f] == [f];
      OneFrame(s, i, src, f);
    } else {
      assert (frames + [f])[1..] == frames[1..] + [f];
      LastFrame(Framed(s, i, src, frames[0]), i, src, frames[1..], f);
    }
  }

  /** Frames of senders that have begun no message do not disturb one that has: a node does what it would do if the
      one sender's frames had come alone. */
  lemma {:induction false} SendersApart(s: State, i: nat, src: u16, traffic: seq<Arrival>)
    requires HeldFor(s, i, src)
    requires forall a :: a in traffic ==> a.node == i && (a.src != src ==> !a.frame.first)
    ensures AfterTraffic(s, traffic) == AllFramed(s, i, src, FramesOf(traffic, src))
    ensures HeldFor(AfterTraffic(s, traffic), i, src)
    decreases |traffic|
  {
    hide Framed;
    if traffic != [] {
      var front, a := traffic[..|traffic| - 1], traffic[|traffic| - 1];
      assert forall b :: b in front ==> b in traffic;
      assert a in traffic;
      SendersApart(s, i, src, front);
      hide HeldFor;
      var now := AfterTraffic(s, front);
      assert AfterTraffic(s, traffic) == Framed(now, i, a.src, a.frame);
      if a.src == src {
        LastFrame(s, i, src, FramesOf(front, src), a.frame);
        FrameHolds(now, i, src, a.frame);
      } else {
        StrayFrame(now, i, src, a.src, a.frame);
        assert FramesOf(traffic, src) == FramesOf(front, src);
      }
    }
  }

  lemma LoadedTwice(s: State, i: nat, src: u16, a: seq<u8>, b: seq<u8>)
    requires i < |s.nodes| && s.nodes[i].train.Some?
    ensures Loaded(Loaded(s, i, src, a), i, src, b) == Loaded(s, i, src, b)
  {
  }

  lemma {:induction false} RestArrives(s: State, i: nat, src: u16, payload: seq<u8>, offset: nat)
    requires i < |s.nodes| && s.nodes[i].train.Some? && 0 < offset < |payload| <= RX_BUFFER
    ensures var whole := Loaded(s, i, src, payload);
      AllFramed(Loaded(s, i, src, payload[..offset]), i, src, Cut(payload, offset))
        == Cleared(Dispatched(whole, i, src, payload), i)
    decreases |payload| - offset
  {
    hide Dispatched, Cleared;
    var now, whole := Loaded(s, i, src, payload[..offset]), Loaded(s, i, src, payload);
    TrainStays(whole, i, src, payload);
    LoadedTwice(s, i, src, payload[..offset], payload);
    if |payload| - offset <= 6 {
      assert payload[..offset] + payload[offset..] == payload;
      var f := Fragment(false, true, payload[offset..]);
      assert Cut(payload, offset) == [f];
      assert Framed(now, i, src, f) == Cleared(Dispatched(whole, i, src, payload), i);
      OneFrame(now, i, src, f);
    } else {
      assert payload[..offset] + payload[offset..offset + 6] == payload[..offset + 6];
      LoadedTwice(s, i, src, payload[..offset], payload[..offset + 6]);
      RestArrives(s, i, src, payload, offset + 6);
      FirstFrame(now, i, src, Fragment(false, false, payload[offset..offset + 6]), Cut(payload, offset + 6));
    }
  }

  lemma OneFrame(s: State, i: nat, src: u16, f: Fragment)
    requires i < |s.nodes|
    ensures AllFramed(s, i, src, [f]) == Framed(s, i, src, f)
  {
    hide Framed;
    assert [f][1..] == [];
  }

  lemma FirstFrame(s: State, i: nat, src: u16, f: Fragment, rest: seq<Fragment>)
    requires i < |s.nodes|
    ensures AllFramed(s, i, src, [f] + rest) == AllFramed(Framed(s, i, src, f), i, src, rest)
  {
    hide Framed;
    assert ([f] + rest)[1..] == rest;
  }

  /** Cutting a message into frames and putting it together again does what the whole message does: a message
      of up to six bytes at once, a longer one after clearing the way for the next. */
  lemma FramesReassemble(s: State, i: nat, src: u16, payload: seq<u8>)
    requires i < |s.nodes| && s.nodes[i].train.Some? && |payload| <= RX_BUFFER
    ensures |payload| <= 6 ==> AllFramed(s, i, src, Cut(payload, 0)) == Dispatched(s, i, src, payload)
    ensures 6 < |payload| ==>
      var whole := Loaded(s, i, src, payload);
      AllFramed(s, i, src, Cut(payload, 0)) == Cleared(Dispatched(whole, i, src, payload), i)
  {
    hide Dispatched, Cleared;
    if |payload| <= 6 {
      assert payload[0..] == payload;
      OneFrame(s, i, src, Fragment(true, true, payload));
    } else {
      assert payload[0..6] == payload[..6];
      FirstFrame(s, i, src, Fragment(true, false, payload[..6]), Cut(payload, 6));
      RestArrives(s, i, src, payload, 6);
    }
  }

  lemma CutStep(payload: seq<u8>, offset: nat, chunk: nat, last: bool)
    requires offset <= |payload| && chunk == (if |payload| - offset > 6 then 6 else |payload| - offset)
    requires last <==> offset + chunk >= |payload|
    ensures var f := Fragment(offset == 0, last, payload[offset..offset + chunk]);
      Cut(payload, offset) == if last then [f] else [f] + Cut(payload, offset + chunk)
  {
    assert offset + chunk == |payload| ==> payload[offset..offset + chunk] == payload[offset..];
  }

  /** The frames sent so far and those still to come are the message's, and none is too long. */
  ghost predicate CutSoFar(frames: seq<Fragment>, payload: seq<u8>, offset: nat, first: bool) {
    && offset <= |payload| && (first <==> offset == 0 && frames == [])
    && (forall k :: 0 <= k < |frames| ==> |frames[k].data| <= 6)
    && Cut(payload, 0) == frames + if first || offset < |payload| then Cut(payload, offset) else []
  }

  lemma {:induction false} CutOn(frames: seq<Fragment>, payload: seq<u8>, offset: nat, first: bool, chunk: nat, last: bool)
    requires CutSoFar(frames, payload, offset, first) && (first || offset < |payload|)
    requires chunk == (if |payload| - offset > 6 then 6 else |payload| - offset) && (last <==> offset + chunk >= |payload|)
    ensures first <==> offset == 0
    ensures CutSoFar(frames + [Fragment(first, last, payload[offset..offset + chunk])], payload, offset + chunk, false)
  {
    CutStep(payload, offset, chunk, last);
    var f := Fragment(first, last, payload[offset..offset + chunk]);
    var rest := if last then [] else Cut(payload, offset + chunk);
    assert Cut(payload, offset) == [f] + rest;
    assert forall k :: 0 <= k < |frames| ==> (frames + [f])[k] == frames[k];
    hide Cut;
    Joined(frames, f, rest);
  }

  lemma Joined(frames: seq<Fragment>, f: Fragment, rest: seq<Fragment>)
    ensures frames + ([f] + rest) == frames + [f] + rest
  {
  }

  lemma CutAll(frames: seq<Fragment>, payload: seq<u8>)
    requires CutSoFar(frames, payload, |payload|, false)
    ensures frames == Cut(payload, 0) && forall k :: 0 <= k < |frames| ==> |frames[k].data| <= 6
  {
    hide Cut;
  }

  /** Sends an addressed message in frames. */
  method SendAddressed(payload: seq<u8>) returns (frames: seq<Fragment>)
    ensures frames == Cut(payload, 0)
    ensures forall k :: 0 <= k < |frames| ==> |frames[k].data| <= 6
  {
    hide Cut, CutSoFar;
    frames := [];
    var offset: nat := 0;
    var first := true;
    assert CutSoFar([], payload, 0, true) by { NothingCut(payload); }
    while offset < |payload| || first
      invariant offset <= |payload| && CutSoFar(frames, payload, offset, first)
      decreases |payload| - offset, first
    {
      var remaining := |payload| - offset;
      var chunk := if remaining > 6 then 6 else remaining;
      var last := offset + chunk >= |payload|;
      CutOn(frames, payload, offset, first, chunk, last);
      frames := frames + [Fragment(first, last, payload[offset..offset + chunk])];
      offset := offset + chunk;
      first := false;
    }
    CutAll(frames, payload);
  }

  lemma NothingCut(payload: seq<u8>)
    ensures CutSoFar([], payload, 0, true)
  {
  }

  // ---- the node registry ------------------------------------------------------------------------

  class Registry {
    const nodes: array<Node>
    var calls: seq<Call>
    var sent: seq<Message>

    ghost function View(): State
      reads this, nodes
    {
      State(nodes[..], calls, sent)
    }

    constructor (registered: seq<Node>)
      ensures fresh(nodes) && View() == State(registered, [], [])
    {
      nodes := new Node[|registered|](k requires 0 <= k < |registered| => registered[k]);
      calls, sent := [], [];
      new;
      assert nodes[..] == registered;
    }

    method Put(i: nat, t: Train)
      requires i < nodes.Length
      modifies nodes
      ensures nodes[..] == old(nodes[..])[i := old(nodes[i]).(train := Some(t))]
    {
      nodes[i] := nodes[i].(train := Some(t));
    }

    method OnSetSpeed(i: nat, p: seq<u8>)
      requires i < nodes.Length && nodes[i].train.Some? && p != [] && Sub(p) == SET_SPEED
      modifies nodes, this`calls
      ensures View() == Applied(old(View()), i, p)
    {
      if |p| < 3 {
        assert nodes[..][i := nodes[i].(train := Some(nodes[i].train.value))] == nodes[..];
        return;
      }
      var t := nodes[i].train.value;
      var v := Pair(p[1], p[2]);
      Put(i, t.(speed := v, emergency := false));
      calls := calls + [Throttle(t.address, t.isLong, v, !(v >= 0x8000))];
    }

    method OnSetFunction(i: nat, p: seq<u8>)
      requires i < nodes.Length && nodes[i].train.Some? && p != [] && Sub(p) == SET_FUNCTION
      modifies nodes, this`calls
      ensures View() == Applied(old(View()), i, p)
    {
      if |p| < 6 || MAX_FUNCTION < FunctionOf(p) {
        assert nodes[..][i := nodes[i].(train := Some(nodes[i].train.value))] == nodes[..];
        return;
      }
      var t := nodes[i].train.value;
      var fn := FunctionOf(p);
      var on := Pair(p[4], p[5]) != 0;
      Put(i, t.(functions := if on then t.functions + {fn} else t.functions - {fn}));
      calls := calls + [Function(t.address, t.isLong, fn, on)];
    }

    method OnEmergencyStop(i: nat, p: seq<u8>)
      requires i < nodes.Length && nodes[i].train.Some? && p != [] && Sub(p) == EMERGENCY_STOP
      modifies nodes, this`calls
      ensures View() == Applied(old(View()), i, p)
    {
      var t := nodes[i].train.value;
      Put(i, t.(speed := t.speed / 0x8000 * 0x8000, emergency := true));
      calls := calls + [Stop(t.address, t.isLong)];
    }

    method FindNode(id: seq<u8>) returns (d: int)
      ensures d == Find(nodes[..], id, 0)
    {
      d := 0;
      while d < nodes.Length
        invariant 0 <= d <= nodes.Length && Find(nodes[..], id, 0) == Find(nodes[..], id, d)
      {
        if nodes[d].id == id {
          return;
        }
        d := d + 1;
      }
      d := -1;
    }

    method FindSlot(consist: seq<Entry>, id: seq<u8>) returns (k: int)
      ensures k == FindEntry(consist, id, 0)
    {
      k := 0;
      while k < |consist|
        invariant 0 <= k <= |consist| && FindEntry(consist, id, 0) == FindEntry(consist, id, k)
      {
        if consist[k].nodeId == id {
          return;
        }
        k := k + 1;
      }
      k := -1;
    }

    method OnConsistConfig(i: nat, sender: u16, p: seq<u8>)
      requires i < nodes.Length && nodes[i].train.Some? && p != []
      modifies nodes, this`sent
      ensures View() == Configured(old(View()), i, sender, p)
    {
      if |p| < 9 || (p[1] != ATTACH && p[1] != DETACH) {
        return;
      }
      var n := nodes[i];
      var t := n.train.value;
      var target := p[3..9];
      var at := FindSlot(t.consist, target);
      var error := ERR_OK;
      var consist := t.consist;
      if p[1] == DETACH {
        if at < 0 {
          error := ERR_NOT_FOUND;
        } else {
          consist := consist[at := Entry(NO_ID, 0)];
        }
      } else if target == n.id {
        error := ERR_ALREADY_EXISTS;
      } else if at >= 0 {
        consist := consist[at := consist[at].(flags := p[2])];
      } else {
        at := FindSlot(t.consist, NO_ID);
        if at < 0 {
          error := ERR_ALREADY_EXISTS;
        } else {
          consist := consist[at := Entry(target, p[2])];
        }
      }
      hide FindEntry, Find;
      Put(i, t.(consist := consist));
      sent := sent + [Message(n.alias, sender, true, ConsistReply(p[1], target, error))];
    }

    /** Passes a command to one member; a local member is handed the frame directly. */
    method ForwardToSlave(i: nat, d: nat, flags: u8, p: seq<u8>)
      requires i < nodes.Length && d < nodes.Length && Forwards(p) && !Listener(p) && |p| <= 6
      modifies this`calls, this`sent, nodes
      ensures View() == ToMember(old(View()), old(nodes[i].alias), d, Passed(p, flags))
      decreases 0, 4
    {
      hide Applied, PassedOn, Configured;
      var q: seq<u8> := [p[0] + 0x80] + p[1..];
      if Sub(p) == SET_SPEED && Reverse(flags) && 3 <= |p| {
        q := q[1 := Flip(q[1])];
      }
      assert q == Passed(p, flags);
      sent := sent + [Message(nodes[i].alias, nodes[d].alias, false, q)];
      HandleFrame(d, nodes[i].alias, Fragment(true, true, q));
    }

    method ForwardToConsist(i: nat, sender: u16, p: seq<u8>)
      requires i < nodes.Length && nodes[i].train.Some? && Forwards(p) && (!Listener(p) ==> Carried(p))
      modifies this`calls, this`sent, nodes
      ensures View() == if Listener(p) then old(View())
                        else PassedOn(old(View()), i, sender, p, |old(nodes[i]).train.value.consist|)
      decreases if Listener(p) then 0 else 1, 1
    {
      if Listener(p) {
        return;
      }
      hide Target, ToMember, Passed, PassedOn;
      ghost var before := View();
      NoneYet(before, i, sender, p);
      var slots := |nodes[i].train.value.consist|;
      var k: nat := 0;
      while k < slots
        invariant k <= slots && nodes[i] == before.nodes[i]
        invariant View() == PassedOn(before, i, sender, p, k)
      {
        var e := nodes[i].train.value.consist[k];
        ForwardToSlot(i, e, sender, p);
        PassedOnNext(before, i, sender, p, k);
        PassedOnSelf(before, i, sender, p, k + 1);
        k := k + 1;
      }
    }

    method ForwardToSlot(i: nat, e: Entry, sender: u16, p: seq<u8>)
      requires i < nodes.Length && Forwards(p) && !Listener(p) && Carried(p)
      modifies this`calls, this`sent, nodes
      ensures var d := Target(old(nodes[..]), i, e, sender, p);
        View() == if d == -1 then old(View()) else ToMember(old(View()), old(nodes[i].alias), d, Passed(p, e.flags))
      decreases 0, 5
    {
      hide ToMember, Passed, FunctionOf;
      if e.nodeId == NO_ID || !ShouldForward(p, e.flags) {
        return;
      }
      var d := FindNode(e.nodeId);
      if d < 0 || d == i || nodes[d].alias == sender {
        return;
      }
      ForwardToSlave(i, d, e.flags, p);
    }

    method Dispatch(i: nat, sender: u16, p: seq<u8>)
      requires i < nodes.Length && nodes[i].train.Some?
      requires Forwards(p) && !Listener(p) ==> Carried(p)
      modifies this`calls, this`sent, nodes
      ensures View() == Dispatched(old(View()), i, sender, p)
      decreases if p != [] && !Listener(p) then 1 else 0, 2
    {
      hide Acted, Calls, PassedOn, Configured;
      if |p| < 1 {
        return;
      }
      var sub := Sub(p);
      if sub == SET_SPEED {
        OnSetSpeed(i, p);
        ForwardToConsist(i, sender, p);
      } else if sub == SET_FUNCTION {
        OnSetFunction(i, p);
        ForwardToConsist(i, sender, p);
      } else if sub == EMERGENCY_STOP {
        OnEmergencyStop(i, p);
        ForwardToConsist(i, sender, p);
      } else if sub == CONSIST_CONFIG {
        OnConsistConfig(i, sender, p);
      }
    }

    /** A command that a frame completes is passed on in one frame or not at all. */
    ghost predicate Fits(i: nat, src: u16, f: Fragment)
      reads nodes
      requires i < nodes.Length
    {
      && (f.first && f.last && Forwards(f.data) && !Listener(f.data) ==> Carried(f.data))
      && (!f.first && f.last && nodes[i].train.Some? ==>
            (var p := nodes[i].train.value.received + f.data; Forwards(p) && !Listener(p) ==> Carried(p)))
    }

    method HandleFrame(i: nat, src: u16, f: Fragment)
      requires i < nodes.Length && Fits(i, src, f)
      modifies this`calls, this`sent, nodes
      ensures View() == Framed(old(View()), i, src, f)
      decreases if f.first && f.last && f.data != [] && Listener(f.data) then 0 else 1, 3
    {
      hide Dispatched;
      if nodes[i].train.None? {
        return;
      }
      var t := nodes[i].train.value;
      if f.first && f.last {
        Dispatch(i, src, f.data);
      } else if f.first {
        if |f.data| > RX_BUFFER {
          Put(i, t.(receiving := false, receivedFrom := src, received := []));
        } else {
          Put(i, t.(receiving := true, receivedFrom := src, received := f.data));
        }
      } else if !t.receiving || t.receivedFrom != src {
        return;
      } else if |t.received| + |f.data| > RX_BUFFER {
        Put(i, t.(receiving := false));
      } else {
        Put(i, t.(received := t.received + f.data));
        if f.last {
          TrainStays(View(), i, src, t.received + f.data);
          Dispatch(i, src, t.received + f.data);
          Put(i, nodes[i].train.value.(receiving := false, received := []));
        }
      }
    }
  }
}
