/** Deferred requests over whole runs: the LCC task and the RailCom task interleaved between single loads,
    stores and groups of plain field writes. */
module Deferred {
  import opened Bits
  import opened Memconfig

  /** A request whose acknowledgement promised a reply. */
  datatype Asked = Asked(node: nat, src: u16, req: Request, size: u32)

  datatype Answer = Answer(error: u16, data: seq<u8>)

  datatype Reply = Reply(id: nat, datagram: Datagram)

  /** Where the LCC task is; `id` numbers the request it is serving. */
  datatype LccPc =
    | Free
    | LoadState(id: nat)
    | WriteSlot(id: nat)
    | StorePending(id: nat)
    | CallHook(id: nat)
    | WriteRailRequest(id: nat)
    | StoreRailPending(id: nat)
    | StoreIdle(id: nat, error: u16)
    | SendError(id: nat, error: u16)
    | FlushLoad
    | FlushSend
    | FlushStore

  /** Where the RailCom task is. */
  datatype RailPc =
    | Top
    | TakeRequest
    | StartRead
    | Poll
    | CompleteLoad(answer: Answer)
    | CompleteWrite(answer: Answer)
    | CompleteStore(answer: Answer)
    | Release

  /** The shared slot and flags, the tasks' positions, and the run's history: the requests asked so far,
      the answers the reads ended with, and the replies sent. `owner` numbers the slot's request and
      `railReq` the one in the RailCom request struct. */
  datatype Sys = Sys(
    lcc: LccPc, slot: Slot, owner: nat,
    rail: RailPc, busy: bool, pending: bool, railReq: nat, reading: bool,
    asked: seq<Asked>, answers: map<nat, Answer>, replies: seq<Reply>)

  datatype Action =
    | Ask(a: Asked)                 // the LCC task takes up a deferred request
    | Flush                         // or looks for a finished one
    | Lcc(railcomOff: bool)         // the LCC task's next step
    | Rail                          // the RailCom task's next step
    | ReadEnds(answer: Answer)      // a poll that ends the read

  function ErrorOf(s: Sys, id: nat, error: u16): Reply
    requires id < |s.asked|
  {
    var a := s.asked[id];
    Reply(id, ErrorReply(a.node, a.src, a.req, error))
  }

  const ERR_UNIMPLEMENTED_CMD: u16 := 0x1042

  ghost predicate Ids(s: Sys) {
    match s.lcc
      case LoadState(id) => id < |s.asked|
      case WriteSlot(id) => id < |s.asked|
      case StorePending(id) => id < |s.asked|
      case CallHook(id) => id < |s.asked|
      case WriteRailRequest(id) => id < |s.asked|
      case StoreRailPending(id) => id < |s.asked|
      case StoreIdle(id, _) => id < |s.asked|
      case SendError(id, _) => id < |s.asked|
      case _ => true
  }

  ghost function StepLcc(s: Sys, railcomOff: bool): Sys
    requires Ids(s)
  {
    match s.lcc
    case Free => s
    case LoadState(id) =>
      if s.slot.state != Idle then s.(lcc := SendError(id, ERR_TEMPORARY)) else s.(lcc := WriteSlot(id))
    case WriteSlot(id) =>
      var a := s.asked[id];
      s.(slot := Claimed(a.node, a.src, a.req).(state := s.slot.state), owner := id, lcc := StorePending(id))
    case StorePending(id) => s.(slot := s.slot.(state := Pending), lcc := CallHook(id))
    case CallHook(id) =>
      if railcomOff then s.(lcc := StoreIdle(id, ERR_UNIMPLEMENTED_CMD))
      else if s.busy then s.(lcc := StoreIdle(id, ERR_TEMPORARY))
      else s.(busy := true, lcc := WriteRailRequest(id))
    case WriteRailRequest(id) => s.(railReq := id, lcc := StoreRailPending(id))
    case StoreRailPending(id) => s.(pending := true, lcc := Free)
    case StoreIdle(id, e) => s.(slot := s.slot.(state := Idle), lcc := SendError(id, e))
    case SendError(id, e) => s.(replies := s.replies + [ErrorOf(s, id, e)], lcc := Free)
    case FlushLoad => s.(lcc := if s.slot.state == Done then FlushSend else Free)
    case FlushSend => s.(replies := s.replies + [Reply(s.owner, SlotReply(s.slot))], lcc := FlushStore)
    case FlushStore => s.(slot := s.slot.(state := Idle), lcc := Free)
  }

  ghost function StepRail(s: Sys): Sys {
    match s.rail
    case Top => s.(rail := if s.pending then TakeRequest else if s.reading then Poll else Top)
    case TakeRequest => s.(pending := false, rail := StartRead)
    case StartRead => s.(reading := true, rail := Poll)
    case Poll => s.(rail := Top)
    case CompleteLoad(a) => s.(rail := if s.slot.state != Pending then Release else CompleteWrite(a))
    case CompleteWrite(a) => s.(slot := Completed(s.slot, a.error, a.data).(state := s.slot.state), rail := CompleteStore(a))
    case CompleteStore(a) => s.(slot := s.slot.(state := Done), rail := Release)
    case Release => s.(busy := false, rail := Top)
  }

  /** One step of a run; an action that does not apply changes nothing. */
  ghost function Step(s: Sys, action: Action): Sys
    requires Ids(s)
  {
    match action
    case Ask(a) =>
      if s.lcc != Free then s
      else
        var id := |s.asked|;
        s.(asked := s.asked + [a],
           lcc := if a.size <= a.req.addr then SendError(id, ERR_OUT_OF_BOUNDS) else LoadState(id))
    case Flush => if s.lcc != Free then s else s.(lcc := FlushLoad)
    case Lcc(off) => StepLcc(s, off)
    case Rail => StepRail(s)
    case ReadEnds(a) =>
      if s.rail != Poll then s
      else s.(reading := false, answers := s.answers[s.railReq := a], rail := CompleteLoad(a))
  }

  const START := Sys(Free, Slot(Idle, 0, 0, 0, 0, 0, 0, []), 0, Top, false, false, 0, false, [], map[], [])

  // ---- the invariant ------------------------------------------------------------

  /** The hook's job: the RailCom task still owes the slot a completion. */
  ghost predicate Owing(s: Sys) {
    s.pending || s.reading || !(s.rail.Top? || s.rail.Release?)
  }

  /** The RailCom task has nothing to do and touches nothing. */
  ghost predicate AtRest(s: Sys) { s.rail.Top? && !s.pending && !s.reading }

  /** The LCC task is between claiming the slot and the hook's answer. */
  ghost predicate InHook(l: LccPc) {
    l.CallHook? || l.WriteRailRequest? || l.StoreRailPending? || l.StoreIdle?
  }

  /** The slot holds its owner's request. */
  ghost predicate Matches(s: Sys) {
    s.owner < |s.asked| &&
    var a := s.asked[s.owner];
    s.slot.node == a.node && s.slot.src == a.src && s.slot.cmd == a.req.cmd && s.slot.space == a.req.space
      && s.slot.addr == a.req.addr
  }

  /** The request the LCC task is serving is not the slot's. */
  ghost predicate NotServed(s: Sys) { s.lcc.LoadState? || s.lcc.SendError? ==> s.lcc.id != s.owner }

  /** Who may touch the slot, by its state. */
  ghost predicate SlotInv(s: Sys) {
    match s.slot.state
    case Idle =>
      !Owing(s) && !InHook(s.lcc) && !s.lcc.FlushSend? && !s.lcc.FlushStore?
      && (s.lcc.StorePending? ==> s.owner == s.lcc.id && Matches(s))
    case Pending =>
      Matches(s) && !s.lcc.FlushSend? && !s.lcc.FlushStore? && !s.lcc.WriteSlot? && !s.lcc.StorePending?
      && (if InHook(s.lcc) then s.owner == s.lcc.id && !Owing(s) else Owing(s) && s.railReq == s.owner && NotServed(s))
    case Done =>
      Matches(s) && !Owing(s) && !InHook(s.lcc) && !s.lcc.WriteSlot? && !s.lcc.StorePending? && NotServed(s)
      && s.owner in s.answers && s.slot.error == s.answers[s.owner].error
      && s.slot.data == Cut(s.answers[s.owner].data, DEFERRED_DATA_MAX)
  }

  /** The RailCom handshake: one job at a time, its request written only while the task is at rest. */
  ghost predicate RailInv(s: Sys) {
    && (s.lcc.WriteRailRequest? || s.lcc.StoreRailPending? ==> s.busy && AtRest(s))
    && (s.lcc.StoreRailPending? ==> s.railReq == s.lcc.id)
    && (!s.busy ==> AtRest(s))
    && (s.rail.TakeRequest? ==> s.pending && !s.reading)
    && (s.rail.StartRead? ==> !s.pending && !s.reading)
    && (s.rail.Poll? ==> s.reading && !s.pending)
    && (s.pending ==> !s.reading)
    && (s.rail.Release? ==> !s.pending && !s.reading)
    && (s.rail.CompleteLoad? || s.rail.CompleteWrite? || s.rail.CompleteStore? ==>
          !s.pending && !s.reading && s.railReq in s.answers && s.answers[s.railReq] == s.rail.answer)
    && (s.rail.CompleteStore? ==> s.slot.error == s.rail.answer.error && s.slot.data == Cut(s.rail.answer.data, DEFERRED_DATA_MAX))
    && (s.busy && AtRest(s) ==> s.lcc.WriteRailRequest? || s.lcc.StoreRailPending?)
  }

  /** The requests not replied to yet: the slot's and the one the LCC task is serving. */
  ghost function Waiting(s: Sys): set<nat> {
    (if s.slot.state != Idle && !s.lcc.FlushStore? then {s.owner} else {})
    + (if s.lcc.Free? || s.lcc.FlushLoad? || s.lcc.FlushSend? || s.lcc.FlushStore? then {} else {s.lcc.id})
  }

  ghost function Replied(s: Sys): set<nat> { set i | 0 <= i < |s.replies| :: s.replies[i].id }

  ghost predicate OneEach(s: Sys) {
    && Waiting(s) !! Replied(s)
    && (forall id :: id in Waiting(s) + Replied(s) <==> 0 <= id < |s.asked|)
    && (forall i, j :: 0 <= i < j < |s.replies| ==> s.replies[i].id != s.replies[j].id)
  }

  /** The error a request can be turned away with: its address is outside the space exactly if it says so;
      otherwise the slot or the RailCom task is busy, or the RailCom task is off. */
  ghost predicate TurnedAway(a: Asked, e: u16) {
    if a.size <= a.req.addr then e == ERR_OUT_OF_BOUNDS else e == ERR_TEMPORARY || e == ERR_UNIMPLEMENTED_CMD
  }

  /** A reply is its own request's: what its own read ended with if it was read, else why it was turned away. */
  ghost predicate Honest(s: Sys, r: Reply) {
    r.id < |s.asked| &&
    var a := s.asked[r.id];
    if r.id in s.answers then
      r.datagram == Datagram(a.node, a.src,
        ReplyBytes(a.req.cmd, a.req.space, a.req.addr, s.answers[r.id].error, Cut(s.answers[r.id].data, DEFERRED_DATA_MAX)))
    else
      exists e :: TurnedAway(a, e)
        && r.datagram == Datagram(a.node, a.src, ReplyBytes(a.req.cmd, a.req.space, a.req.addr, e, []))
  }

  /** The request the LCC task is serving is in bounds, or is being turned away with the right error. */
  ghost predicate ErrorInv(s: Sys)
    requires Ids(s)
  {
    match s.lcc
    case Free => true
    case FlushLoad => true
    case FlushSend => s.slot.state == Done
    case FlushStore => s.slot.state == Done
    case SendError(id, e) => TurnedAway(s.asked[id], e)
    case StoreIdle(id, e) => s.asked[id].req.addr < s.asked[id].size && TurnedAway(s.asked[id], e)
    case _ => s.asked[s.lcc.id].req.addr < s.asked[s.lcc.id].size
  }

  ghost predicate Completing(r: RailPc) { r.CompleteLoad? || r.CompleteWrite? || r.CompleteStore? }

  /** Only a read of the slot's own request can have ended without its reply being out, and it ends once. */
  ghost predicate AnsweredOnce(s: Sys) {
    && (forall id :: id in s.answers ==> id in Replied(s) || (id == s.owner && s.slot.state != Idle))
    && (s.slot.state == Pending && s.owner in s.answers ==> Completing(s.rail))
  }

  ghost predicate Inv(s: Sys) {
    && Ids(s) && SlotInv(s) && RailInv(s) && OneEach(s)
    && (forall r :: r in s.replies ==> Honest(s, r))
    && ErrorInv(s) && AnsweredOnce(s)
  }

  lemma StartHolds()
    ensures Inv(START)
  {
  }

  lemma SlotStepHook(s: Sys, off: bool)
    requires Inv(s) && InHook(s.lcc)
    ensures var t := StepLcc(s, off); Ids(t) && SlotInv(t) && RailInv(t)
  {
    hide OneEach, Honest, AnsweredOnce, Waiting, Replied, ErrorReply, SlotReply, Completed, Cut;
  }

  lemma SlotStepClaim(s: Sys, off: bool)
    requires Inv(s) && (s.lcc.LoadState? || s.lcc.WriteSlot? || s.lcc.StorePending?)
    ensures var t := StepLcc(s, off); Ids(t) && SlotInv(t) && RailInv(t)
  {
    hide OneEach, Honest, AnsweredOnce, Waiting, Replied, ErrorReply, SlotReply, Completed, Cut;
  }

  lemma SlotStepSend(s: Sys, off: bool)
    requires Inv(s) && !InHook(s.lcc) && !s.lcc.LoadState? && !s.lcc.WriteSlot? && !s.lcc.StorePending?
    ensures var t := StepLcc(s, off); Ids(t) && SlotInv(t) && RailInv(t)
  {
    hide OneEach, Honest, AnsweredOnce, Waiting, Replied, ErrorReply, SlotReply, Completed, Cut, Claimed;
  }

  lemma SlotStepRail(s: Sys)
    requires Inv(s)
    ensures var t := StepRail(s); Ids(t) && SlotInv(t) && RailInv(t)
  {
    hide OneEach, Honest, AnsweredOnce, Waiting, Replied, ErrorReply, SlotReply, Cut;
  }

  lemma SlotStepOther(s: Sys, action: Action)
    requires Inv(s) && !action.Lcc? && !action.Rail?
    ensures var t := Step(s, action); Ids(t) && SlotInv(t) && RailInv(t)
  {
    hide OneEach, Honest, AnsweredOnce, Waiting, Replied, ErrorReply, SlotReply, Completed, Cut;
  }

  lemma SlotStep(s: Sys, action: Action)
    requires Inv(s)
    ensures var t := Step(s, action); Ids(t) && SlotInv(t) && RailInv(t)
  {
    hide SlotInv, RailInv, Ids, Inv, StepLcc, StepRail;
    match action
    case Lcc(off) =>
      if InHook(s.lcc) {
        SlotStepHook(s, off);
      } else if s.lcc.LoadState? || s.lcc.WriteSlot? || s.lcc.StorePending? {
        SlotStepClaim(s, off);
      } else {
        SlotStepSend(s, off);
      }
    case Rail => SlotStepRail(s);
    case _ => SlotStepOther(s, action);
  }

  /** A step sends one reply, to a request still waiting for it. */
  ghost predicate Replies(s: Sys, t: Sys, r: Reply) {
    t.asked == s.asked && t.replies == s.replies + [r]
    && r.id in Waiting(s) && Waiting(t) == Waiting(s) - {r.id} && Honest(t, r)
  }

  /** A step takes up one more request. */
  ghost predicate TakesUp(s: Sys, t: Sys) {
    |t.asked| == |s.asked| + 1 && t.asked[..|s.asked|] == s.asked && t.replies == s.replies
    && Waiting(t) == Waiting(s) + {|s.asked|}
  }

  ghost predicate SameAccount(s: Sys, t: Sys) {
    t.asked == s.asked && t.replies == s.replies && Waiting(t) == Waiting(s)
  }

  lemma ErrorSent(s: Sys, off: bool)
    requires Inv(s) && s.lcc.SendError?
    ensures Replies(s, StepLcc(s, off), ErrorOf(s, s.lcc.id, s.lcc.error))
  {
    hide Replied, RailInv, ReplyBytes, TurnedAway;
    var r := ErrorOf(s, s.lcc.id, s.lcc.error);
    var a := s.asked[r.id];
    assert r.id in Waiting(s);
    assert r.id !in Replied(s);
    assert r.id !in s.answers;
    hide OneEach, AnsweredOnce;
    assert r.datagram == ErrorReply(a.node, a.src, a.req, s.lcc.error);
  }

  lemma ResultSent(s: Sys, off: bool)
    requires Inv(s) && s.lcc.FlushSend?
    ensures Replies(s, StepLcc(s, off), Reply(s.owner, SlotReply(s.slot)))
  {
    hide OneEach, Replied, RailInv, AnsweredOnce, ErrorReply, ReplyBytes, Cut;
  }

  lemma QuietLcc(s: Sys, off: bool)
    requires Inv(s) && !s.lcc.SendError? && !s.lcc.FlushSend?
    ensures SameAccount(s, StepLcc(s, off))
  {
    hide OneEach, Replied, RailInv, AnsweredOnce, ErrorOf, SlotReply, Claimed, ErrorInv, Honest;
  }

  lemma PendingWhileCompleting(s: Sys)
    requires Inv(s) && Completing(s.rail)
    ensures s.slot.state == Pending && !InHook(s.lcc) && !s.lcc.WriteSlot? && !s.lcc.StorePending?
      && !s.lcc.FlushSend? && !s.lcc.FlushStore?
  {
    hide OneEach, AnsweredOnce, Honest, RailInv;
  }

  lemma QuietRail(s: Sys)
    requires Inv(s)
    ensures SameAccount(s, StepRail(s)) && StepRail(s).answers == s.answers
  {
    if Completing(s.rail) {
      PendingWhileCompleting(s);
    }
    hide Inv;
  }

  /** What a step does to the accounts of requests and replies. */
  lemma Accounting(s: Sys, action: Action)
    requires Inv(s)
    ensures var t := Step(s, action);
      SameAccount(s, t) || TakesUp(s, t) || (|t.replies| > 0 && Replies(s, t, t.replies[|t.replies| - 1]))
  {
    hide SlotInv, RailInv, OneEach, AnsweredOnce, Replied, ErrorReply, Honest, StepRail;
    match action
    case Lcc(off) =>
      hide StepLcc, Waiting;
      if s.lcc.SendError? {
        ErrorSent(s, off);
      } else if s.lcc.FlushSend? {
        ResultSent(s, off);
      } else {
        QuietLcc(s, off);
      }
    case Rail =>
      hide Waiting;
      QuietRail(s);
    case Ask(a) =>
      hide StepLcc;
      if s.lcc.Free? {
        assert (s.asked + [a])[..|s.asked|] == s.asked;
      }
    case _ =>
      hide StepLcc;
  }

  lemma RepliedGrows(s: Sys, t: Sys, r: Reply)
    requires t.replies == s.replies + [r]
    ensures Replied(t) == Replied(s) + {r.id}
  {
    forall id | id in Replied(s) + {r.id}
      ensures id in Replied(t)
    {
      if id in Replied(s) {
        var i :| 0 <= i < |s.replies| && s.replies[i].id == id;
        assert t.replies[i].id == id;
      } else {
        assert t.replies[|s.replies|].id == id;
      }
    }
  }

  lemma OneEachStep(s: Sys, t: Sys)
    requires OneEach(s)
    requires SameAccount(s, t) || TakesUp(s, t) || (|t.replies| > 0 && Replies(s, t, t.replies[|t.replies| - 1]))
    ensures OneEach(t)
  {
    hide Waiting, Honest;
    if !SameAccount(s, t) && !TakesUp(s, t) {
      hide Replied;
      var r := t.replies[|t.replies| - 1];
      RepliedGrows(s, t, r);
      ReplyIn(s);
      assert Waiting(t) + Replied(t) == Waiting(s) + Replied(s);
    }
  }

  lemma ReplyIn(s: Sys)
    ensures forall i :: 0 <= i < |s.replies| ==> s.replies[i].id in Replied(s)
  {
  }

  lemma StaysHonest(s: Sys, t: Sys, r: Reply)
    requires Honest(s, r) && |s.asked| <= |t.asked| && t.asked[..|s.asked|] == s.asked
    requires (r.id in s.answers <==> r.id in t.answers) && (r.id in s.answers ==> t.answers[r.id] == s.answers[r.id])
    ensures Honest(t, r)
  {
    assert t.asked[r.id] == t.asked[..|s.asked|][r.id];
  }

  ghost predicate Accounts(s: Sys, t: Sys) {
    SameAccount(s, t) || TakesUp(s, t) || (|t.replies| > 0 && Replies(s, t, t.replies[|t.replies| - 1]))
  }

  lemma RepliesKept(s: Sys, t: Sys)
    requires Accounts(s, t)
    ensures Replied(s) <= Replied(t)
  {
    hide Waiting, Honest;
    if !SameAccount(s, t) && !TakesUp(s, t) {
      RepliedGrows(s, t, t.replies[|t.replies| - 1]);
    }
  }

  lemma AnswerLcc(s: Sys, off: bool)
    requires Inv(s) && Replied(s) <= Replied(StepLcc(s, off))
    ensures AnsweredOnce(StepLcc(s, off))
  {
    hide Replied, ErrorReply, Honest;
  }

  lemma AnswerRail(s: Sys)
    requires Inv(s)
    ensures AnsweredOnce(StepRail(s))
  {
    hide OneEach, ErrorReply, Honest, Completed, Cut, Matches;
    assert StepRail(s).replies == s.replies;
    assert Replied(StepRail(s)) == Replied(s);
    hide Replied;
  }

  lemma AnswerEnds(s: Sys, a: Answer)
    requires Inv(s) && s.rail.Poll?
    ensures AnsweredOnce(Step(s, ReadEnds(a))) && s.railReq == s.owner && s.owner !in s.answers && s.owner !in Replied(s)
  {
    hide ErrorReply, Honest, Cut, Matches;
    var t := Step(s, ReadEnds(a));
    assert Replied(t) == Replied(s);
    hide Replied;
    assert s.owner in Waiting(s);
  }

  lemma AnswersKept(s: Sys, action: Action)
    requires Inv(s) && (action.ReadEnds? ==> s.rail != Poll)
    ensures Step(s, action).answers == s.answers
  {
    match action
    case Lcc(off) => AnswersLcc(s, off);
    case Rail => QuietRail(s);
    case _ =>
    hide Inv, StepLcc, StepRail;
  }

  lemma AnswersLcc(s: Sys, off: bool)
    requires Ids(s)
    ensures StepLcc(s, off).answers == s.answers
  {
    hide ErrorOf, SlotReply, Claimed;
  }

  lemma AnswerOther(s: Sys, action: Action)
    requires Inv(s) && (action.Ask? || action.Flush?)
    ensures AnsweredOnce(Step(s, action))
  {
    hide SlotInv, RailInv, OneEach, Honest, ErrorReply;
    assert Replied(Step(s, action)) == Replied(s);
    hide Replied;
  }

  /** No read of a request replied to ends any more. */
  ghost predicate Settled(s: Sys, t: Sys) {
    forall id :: id in Replied(s) ==>
      (id in s.answers <==> id in t.answers) && (id in s.answers ==> t.answers[id] == s.answers[id])
  }

  /** Every read ends once, and the answers already replied with are settled. */
  lemma AnswerStep(s: Sys, action: Action)
    requires Inv(s) && Accounts(s, Step(s, action))
    ensures AnsweredOnce(Step(s, action))
    ensures Settled(s, Step(s, action))
  {
    RepliesKept(s, Step(s, action));
    hide SlotInv, RailInv, OneEach, ErrorReply, Honest, Accounts, Replied, StepLcc, StepRail, Ids, AnsweredOnce;
    if action.ReadEnds? && s.rail == Poll {
      AnswerEnds(s, action.answer);
    } else {
      AnswersKept(s, action);
      hide Inv;
      match action
      case Lcc(off) => AnswerLcc(s, off);
      case Rail => AnswerRail(s);
      case ReadEnds(a) => AnswerSame(s);
      case _ => AnswerOther(s, action);
    }
  }

  lemma AnswerSame(s: Sys)
    requires Inv(s)
    ensures AnsweredOnce(s)
  {
    hide SlotInv, RailInv, OneEach, Honest, AnsweredOnce;
  }

  lemma HonestStep(s: Sys, action: Action)
    requires Inv(s) && Accounts(s, Step(s, action)) && AnsweredOnce(Step(s, action))
    requires Settled(s, Step(s, action))
    ensures forall r :: r in Step(s, action).replies ==> Honest(Step(s, action), r)
  {
    var t := Step(s, action);
    HistoryGrows(s, t);
    hide SlotInv, RailInv, OneEach, AnsweredOnce, ErrorInv, Step, Waiting, Honest, Replied, Settled;
    forall r | r in t.replies
      ensures Honest(t, r)
    {
      if r in s.replies {
        OldHonest(s, t, r);
      }
    }
  }

  lemma OldHonest(s: Sys, t: Sys, r: Reply)
    requires r in s.replies && Honest(s, r) && Settled(s, t) && |s.asked| <= |t.asked| && t.asked[..|s.asked|] == s.asked
    ensures Honest(t, r)
  {
    hide Honest;
    ReplyIn(s);
    StaysHonest(s, t, r);
  }

  lemma ErrorLcc(s: Sys, off: bool)
    requires Inv(s) && Ids(StepLcc(s, off))
    ensures ErrorInv(StepLcc(s, off))
  {
    hide SlotInv, RailInv, OneEach, AnsweredOnce, Honest, ErrorOf, Replied, SlotReply, Claimed;
    var t := StepLcc(s, off);
    assert t.asked == s.asked;
    if s.lcc.CallHook? || s.lcc.LoadState? {
      var id := s.lcc.id;
      assert TurnedAway(s.asked[id], ERR_TEMPORARY) && TurnedAway(s.asked[id], ERR_UNIMPLEMENTED_CMD);
      hide TurnedAway;
      assert t.lcc.SendError? || t.lcc.StoreIdle? ==> t.lcc.error == ERR_TEMPORARY || t.lcc.error == ERR_UNIMPLEMENTED_CMD;
    } else {
      hide TurnedAway;
    }
  }

  lemma ErrorRail(s: Sys)
    requires Inv(s) && Ids(StepRail(s))
    ensures ErrorInv(StepRail(s))
  {
    if Completing(s.rail) {
      PendingWhileCompleting(s);
    }
    hide SlotInv, RailInv, OneEach, AnsweredOnce, Honest, Completed, TurnedAway;
    assert StepRail(s).lcc == s.lcc && StepRail(s).asked == s.asked;
  }

  lemma ErrorsKept(s: Sys, action: Action)
    requires Inv(s) && Ids(Step(s, action))
    ensures ErrorInv(Step(s, action))
  {
    hide SlotInv, RailInv, OneEach, AnsweredOnce, Honest, StepLcc, StepRail;
    match action
    case Lcc(off) => ErrorLcc(s, off);
    case Rail => ErrorRail(s);
    case _ =>
  }

  /** Every step of either task keeps the invariant. */
  lemma StepHolds(s: Sys, action: Action)
    requires Inv(s)
    ensures Inv(Step(s, action))
  {
    SlotStep(s, action);
    Accounting(s, action);
    ErrorsKept(s, action);
    hide Step, SlotInv, RailInv, ErrorInv, OneEach, AnsweredOnce, Honest, SameAccount, TakesUp, Replies;
    OneEachStep(s, Step(s, action));
    AnswerStep(s, action);
    HonestStep(s, action);
  }

  // ---- runs ----------------------------------------------------------------------

  /** The state after a run of steps of the two tasks, interleaved in any way. */
  ghost function After(actions: seq<Action>): (s: Sys)
    ensures Ids(s)
    decreases |actions|
  {
    if actions == [] then START
    else
      var s, action := After(actions[..|actions| - 1]), actions[|actions| - 1];
      IdsKept(s, action);
      Step(s, action)
  }

  lemma IdsKept(s: Sys, action: Action)
    requires Ids(s)
    ensures Ids(Step(s, action))
  {
    hide StepLcc, StepRail;
    match action
    case Lcc(off) => LccIds(s, off);
    case Rail => RailIds(s);
    case _ =>
  }

  lemma LccIds(s: Sys, railcomOff: bool)
    requires Ids(s)
    ensures Ids(StepLcc(s, railcomOff))
  {
    hide ErrorOf, SlotReply, Claimed;
  }

  lemma RailIds(s: Sys)
    requires Ids(s)
    ensures Ids(StepRail(s))
  {
    hide Completed;
    assert StepRail(s).lcc == s.lcc && StepRail(s).asked == s.asked;
  }

  lemma {:induction false} RunHolds(actions: seq<Action>)
    ensures Inv(After(actions))
    decreases |actions|
  {
    hide Inv, Step, Ids;
    if actions == [] {
      StartHolds();
    } else {
      var front := actions[..|actions| - 1];
      RunHolds(front);
      StepHolds(After(front), actions[|actions| - 1]);
    }
  }

  lemma {:induction false} BelowCard(n: nat, ids: set<nat>)
    requires forall id :: id in ids <==> 0 <= id < n
    ensures |ids| == n
    decreases n
  {
    if n != 0 {
      BelowCard(n - 1, ids - {n - 1});
    }
  }

  lemma {:induction false} RepliedCard(replies: seq<Reply>, n: nat)
    requires n <= |replies| && forall i, j :: 0 <= i < j < |replies| ==> replies[i].id != replies[j].id
    ensures |set i | 0 <= i < n :: replies[i].id| == n
    decreases n
  {
    if n != 0 {
      RepliedCard(replies, n - 1);
      var before := set i | 0 <= i < n - 1 :: replies[i].id;
      assert replies[n - 1].id !in before;
      assert (set i | 0 <= i < n :: replies[i].id) == before + {replies[n - 1].id};
    }
  }

  /** After any run: replies sent, plus one if the slot is taken, are exactly the requests asked, whenever
      the LCC task is between requests; no request is replied to twice, and each reply is its own
      request's, with the result its own read ended with or an error found at once. */
  lemma ExactlyOneReply(actions: seq<Action>)
    ensures var s := After(actions);
      && (s.lcc.Free? ==> |s.replies| + (if s.slot.state != Idle then 1 else 0) == |s.asked|)
      && (forall i, j :: 0 <= i < j < |s.replies| ==> s.replies[i].id != s.replies[j].id)
      && (forall r :: r in s.replies ==> Honest(s, r))
  {
    var s := After(actions);
    RunHolds(actions);
    hide SlotInv, RailInv, AnsweredOnce, Honest, After;
    RepliedCard(s.replies, |s.replies|);
    if s.lcc.Free? {
      BelowCard(|s.asked|, Waiting(s) + Replied(s));
    }
  }

  /** The LCC task is writing the slot, reading a result from it or holding it for its hook call. */
  ghost predicate TouchesSlot(l: LccPc) {
    l.WriteSlot? || l.StorePending? || InHook(l) || l.FlushSend? || l.FlushStore?
  }

  /** No two tasks at the slot or at the RailCom request at once: the LCC task neither writes the slot nor
      reads a result from it while a completion is under way, and writes the RailCom request only while
      that task is at rest. */
  lemma NoSharedWrites(actions: seq<Action>)
    ensures var s := After(actions);
      && (Completing(s.rail) ==> s.slot.state == Pending && !TouchesSlot(s.lcc))
      && (s.lcc.WriteRailRequest? || s.lcc.StoreRailPending? ==> AtRest(s))
  {
    hide OneEach, AnsweredOnce, Honest, After;
    RunHolds(actions);
  }

  /** The hook keeps its promise: whenever a deferred request is pending and the LCC task is elsewhere, the
      RailCom task is at work on that very request, and its read has not ended before. */
  lemma CompletionOwed(actions: seq<Action>)
    ensures var s := After(actions);
      s.slot.state == Pending && !InHook(s.lcc)
      ==> Owing(s) && s.railReq == s.owner && (s.owner in s.answers <==> Completing(s.rail))
  {
    hide OneEach, Honest, After;
    RunHolds(actions);
  }

  // ---- completion --------------------------------------------------------------------

  /** The RailCom task owes the slot's request `id` its completion. */
  ghost predicate Working(s: Sys, id: nat) { s.slot.state == Pending && s.owner == id && !InHook(s.lcc) }

  /** The request's read has ended and its result has been handed over. */
  ghost predicate Finished(s: Sys, id: nat) { id in s.answers && !(s.slot.state == Pending && s.owner == id) }

  /** The steps the RailCom task has before it, if its next poll ends the read. */
  ghost function ToDo(r: RailPc, pending: bool): nat {
    match r
    case Top => if pending then 7 else 5
    case TakeRequest => 6
    case StartRead => 5
    case Poll => 4
    case CompleteLoad(_) => 3
    case CompleteWrite(_) => 2
    case CompleteStore(_) => 1
    case Release => 0
  }

  /** What an action adds to the RailCom task's work: a step forward, or a step back for a poll that ends nothing. */
  ghost function WorkOf(s: Sys, action: Action): int {
    if action.Rail? then (if s.rail == Poll then -1 else 1) else if action.ReadEnds? && s.rail == Poll then 1 else 0
  }

  /** All steps of the RailCom task, less two for each poll that did not end its read. */
  ghost function Work(actions: seq<Action>): int
    decreases |actions|
  {
    if actions == [] then 0
    else
      var front, last := actions[..|actions| - 1], actions[|actions| - 1];
      Work(front) + WorkOf(After(front), last)
  }

  lemma WorkLcc(s: Sys, action: Action, id: nat)
    requires Inv(s) && Working(s, id) && !action.Rail? && !action.ReadEnds?
    ensures var t := Step(s, action); Working(t, id) && t.rail == s.rail && t.pending == s.pending
  {
    hide RailInv, OneEach, AnsweredOnce, Honest, ErrorInv, ErrorOf, Claimed, SlotReply;
  }

  lemma WorkRail(s: Sys, action: Action, id: nat)
    requires Inv(s) && Working(s, id) && (action.Rail? || action.ReadEnds?)
    ensures var t := Step(s, action);
      Finished(t, id)
      || (Working(t, id) && ToDo(t.rail, t.pending) + WorkOf(s, action) <= ToDo(s.rail, s.pending))
  {
    hide OneEach, AnsweredOnce, Honest, ErrorInv, Completed, StepLcc, Matches, Cut;
  }

  lemma LccFinished(s: Sys, off: bool, id: nat)
    requires Inv(s) && Finished(s, id)
    ensures Finished(StepLcc(s, off), id)
  {
    hide RailInv, Honest, ErrorInv, ErrorOf, Claimed, SlotReply, Matches, Cut;
    assert id in Waiting(s) ==> id !in Replied(s);
    hide Replied, OneEach;
  }

  lemma RailFinished(s: Sys, id: nat)
    requires Inv(s) && Finished(s, id)
    ensures Finished(StepRail(s), id)
  {
    hide RailInv, OneEach, Honest, ErrorInv, Matches, Cut, AnsweredOnce;
  }

  lemma StaysFinished(s: Sys, action: Action, id: nat)
    requires Inv(s) && Finished(s, id)
    ensures Finished(Step(s, action), id)
  {
    hide Inv, StepLcc, StepRail;
    match action
    case Lcc(off) => LccFinished(s, off, id);
    case Rail => RailFinished(s, id);
    case _ =>
  }

  lemma ToDoAtMost(r: RailPc, pending: bool)
    ensures ToDo(r, pending) <= 7
  {
  }

  lemma OneMoreStep(actions: seq<Action>, a: Action)
    ensures After(actions + [a]) == Step(After(actions), a)
    ensures Work(actions + [a]) == Work(actions) + WorkOf(After(actions), a)
  {
    hide Step, WorkOf;
    assert (actions + [a])[..|actions|] == actions;
  }

  lemma {:induction false} WorkDone(before: seq<Action>, more: seq<Action>)
    requires var s := After(before); s.slot.state == Pending && !InHook(s.lcc)
    ensures var id, t := After(before).owner, After(before + more);
      Finished(t, id)
      || (Working(t, id) && ToDo(t.rail, t.pending) + Work(before + more) - Work(before) <= 7)
    decreases |more|
  {
    hide After, Work, WorkOf, Step, Inv, ToDo;
    var id := After(before).owner;
    if more == [] {
      assert before + more == before;
      ToDoAtMost(After(before).rail, After(before).pending);
    } else {
      var front, a := more[..|more| - 1], more[|more| - 1];
      var all := before + front;
      WorkDone(before, front);
      assert before + more == all + [a];
      OneMoreStep(all, a);
      RunHolds(all);
      if Finished(After(all), id) {
        StaysFinished(After(all), a, id);
      } else if a.Rail? || a.ReadEnds? {
        WorkRail(After(all), a, id);
      } else {
        WorkLcc(After(all), a, id);
        NoWork(After(all), a);
      }
    }
  }

  lemma SomethingToDo(s: Sys, id: nat)
    requires Inv(s) && Working(s, id)
    ensures 0 < ToDo(s.rail, s.pending)
  {
    hide OneEach, AnsweredOnce, Honest, ErrorInv;
  }

  lemma NoWork(s: Sys, action: Action)
    requires !action.Rail? && !action.ReadEnds?
    ensures WorkOf(s, action) == 0
  {
  }

  /** A pending request is completed, in any interleaving, once the RailCom task has taken seven steps more than
      two for each poll that did not end the read. */
  lemma CompletionComes(before: seq<Action>, more: seq<Action>)
    requires var s := After(before); s.slot.state == Pending && !InHook(s.lcc)
    requires Work(before) + 7 <= Work(before + more)
    ensures Finished(After(before + more), After(before).owner)
  {
    hide After, Work, Inv, ToDo;
    WorkDone(before, more);
    RunHolds(before + more);
    if Working(After(before + more), After(before).owner) {
      SomethingToDo(After(before + more), After(before).owner);
    }
  }

  // ---- who is taken up and who is turned away ------------------------------------------

  /** An action turns request `id` away with error `e`: its address is outside the space, or it finds the slot
      taken, or its hook finds the RailCom task off or busy. */
  ghost predicate TurnsAway(s: Sys, action: Action, id: nat, e: u16) {
    match action
    case Ask(a) => s.lcc == Free && id == |s.asked| && a.size <= a.req.addr && e == ERR_OUT_OF_BOUNDS
    case Lcc(off) =>
      || (s.lcc == LoadState(id) && s.slot.state != Idle && e == ERR_TEMPORARY)
      || (s.lcc == CallHook(id) && off && e == ERR_UNIMPLEMENTED_CMD)
      || (s.lcc == CallHook(id) && !off && s.busy && e == ERR_TEMPORARY)
    case _ => false
  }

  /** Some action of the run has turned it away. */
  ghost predicate Refused(actions: seq<Action>, id: nat, e: u16)
    decreases |actions|
  {
    actions != [] &&
    var front, last := actions[..|actions| - 1], actions[|actions| - 1];
    Refused(front, id, e) || TurnsAway(After(front), last, id, e)
  }

  lemma RefusedMore(actions: seq<Action>, x: Action, id: nat, e: u16)
    ensures Refused(actions + [x], id, e) <==> Refused(actions, id, e) || TurnsAway(After(actions), x, id, e)
  {
    hide After, TurnsAway;
    assert (actions + [x])[..|actions|] == actions;
  }

  /** The LCC task is about to turn `id` away with `e`. */
  ghost predicate TurningAway(l: LccPc, id: nat, e: u16) { l == SendError(id, e) || l == StoreIdle(id, e) }

  /** Request `id` was not read, and has been replied to with error `e`. */
  ghost predicate ToldError(s: Sys, id: nat, e: u16) {
    && id < |s.asked| && id !in s.answers
    && var a := s.asked[id];
       Reply(id, Datagram(a.node, a.src, ReplyBytes(a.req.cmd, a.req.space, a.req.addr, e, []))) in s.replies
  }

  ghost predicate Refusing(s: Sys, id: nat, e: u16) { TurningAway(s.lcc, id, e) || ToldError(s, id, e) }

  lemma ToldAtOnce(s: Sys, off: bool)
    requires Inv(s) && s.lcc.SendError?
    ensures ToldError(StepLcc(s, off), s.lcc.id, s.lcc.error)
  {
    hide RailInv, Honest, ErrorInv, ReplyBytes, Replied;
    assert s.lcc.id in Waiting(s);
    assert s.lcc.id !in s.answers;
  }

  lemma StaysTold(s: Sys, t: Sys, id: nat, e: u16)
    requires ToldError(s, id, e) && |s.asked| <= |t.asked| && t.asked[..|s.asked|] == s.asked
    requires s.replies <= t.replies && id !in t.answers
    ensures ToldError(t, id, e)
  {
    hide ReplyBytes;
    assert t.asked[id] == t.asked[..|s.asked|][id];
    var a := s.asked[id];
    var r := Reply(id, Datagram(a.node, a.src, ReplyBytes(a.req.cmd, a.req.space, a.req.addr, e, [])));
    var i :| 0 <= i < |s.replies| && s.replies[i] == r;
    assert t.replies[i] == r;
  }

  lemma HistoryGrows(s: Sys, t: Sys)
    requires Accounts(s, t)
    ensures |s.asked| <= |t.asked| && t.asked[..|s.asked|] == s.asked && s.replies <= t.replies
  {
    hide Waiting, Honest;
  }

  lemma TurnedOn(s: Sys, action: Action, id: nat, e: u16)
    requires Ids(s) && (TurnsAway(s, action, id, e) || (TurningAway(s.lcc, id, e) && !(action.Lcc? && s.lcc.SendError?)))
    ensures TurningAway(Step(s, action).lcc, id, e)
  {
    hide ErrorOf, SlotReply, Claimed, Completed;
    if action.Lcc? {
      hide StepRail;
      assert s.lcc.LoadState? || s.lcc.CallHook? || s.lcc.StoreIdle?;
    } else {
      hide StepLcc;
    }
  }

  /** One step on, a request turned away is still being turned away or has been told. */
  lemma RefusingStep(s: Sys, action: Action, id: nat, e: u16)
    requires Inv(s) && (Refusing(s, id, e) || TurnsAway(s, action, id, e))
    ensures Refusing(Step(s, action), id, e)
  {
    Accounting(s, action);
    AnswerStep(s, action);
    hide SlotInv, RailInv, OneEach, AnsweredOnce, Honest, ErrorInv, StepRail, TurnsAway, SameAccount, TakesUp, Replies, ReplyBytes;
    if ToldError(s, id, e) {
      HistoryGrows(s, Step(s, action));
      assert id in Replied(s);
      hide StepLcc, Replied;
      StaysTold(s, Step(s, action), id, e);
    } else if action.Lcc? && TurningAway(s.lcc, id, e) && s.lcc.SendError? {
      ToldAtOnce(s, action.railcomOff);
    } else {
      hide StepLcc;
      TurnedOn(s, action, id, e);
    }
  }

  lemma TurningBefore(s: Sys, action: Action, id: nat, e: u16)
    requires Ids(s) && TurningAway(Step(s, action).lcc, id, e)
    ensures TurningAway(s.lcc, id, e) || TurnsAway(s, action, id, e)
  {
    if action.Lcc? {
      TurningBeforeLcc(s, action.railcomOff, id, e);
    } else {
      hide StepLcc, Completed;
    }
  }

  lemma TurningBeforeLcc(s: Sys, off: bool, id: nat, e: u16)
    requires Ids(s) && TurningAway(StepLcc(s, off).lcc, id, e)
    ensures TurningAway(s.lcc, id, e) || TurnsAway(s, Lcc(off), id, e)
  {
    hide ErrorOf, SlotReply, Claimed, Ids;
    NextPc(s, off);
    hide StepLcc;
  }

  /** What can follow each step of the LCC task that leads to an error. */
  lemma NextPc(s: Sys, off: bool)
    requires Ids(s)
    ensures var l := StepLcc(s, off).lcc;
      && (l.StoreIdle? ==> s.lcc.CallHook? && l.id == s.lcc.id && (off || s.busy)
                           && l.error == if off then ERR_UNIMPLEMENTED_CMD else ERR_TEMPORARY)
      && (l.SendError? ==>
            if s.lcc.StoreIdle? then l == SendError(s.lcc.id, s.lcc.error)
            else s.lcc.LoadState? && s.slot.state != Idle && l == SendError(s.lcc.id, ERR_TEMPORARY))
  {
    hide ErrorOf, SlotReply, Claimed, Ids;
    if s.lcc.CallHook? || s.lcc.LoadState? || s.lcc.StoreIdle? {
    } else {
      NoError(s, off);
      hide StepLcc;
    }
  }

  lemma NoError(s: Sys, off: bool)
    requires Ids(s) && !s.lcc.CallHook? && !s.lcc.LoadState? && !s.lcc.StoreIdle?
    ensures !StepLcc(s, off).lcc.StoreIdle? && !StepLcc(s, off).lcc.SendError?
  {
    hide ErrorOf, SlotReply, Claimed, Ids;
    match s.lcc
    case Free =>
    case WriteSlot(_) =>
    case StorePending(_) =>
    case WriteRailRequest(_) =>
    case StoreRailPending(_) =>
    case SendError(_, _) =>
    case FlushLoad =>
    case FlushSend =>
    case FlushStore =>
  }

  /** A reply with an error comes of a refusal. */
  lemma ToldBefore(s: Sys, action: Action, r: Reply)
    requires Inv(s) && r in Step(s, action).replies && r !in s.replies && r.id !in Step(s, action).answers
    ensures s.lcc.SendError? && s.lcc.id == r.id && ToldError(Step(s, action), r.id, s.lcc.error)
    ensures var a := s.asked[r.id];
      r.datagram == Datagram(a.node, a.src, ReplyBytes(a.req.cmd, a.req.space, a.req.addr, s.lcc.error, []))
  {
    NewReply(s, action, r);
    hide RailInv, OneEach, AnsweredOnce, Honest, ErrorInv, SlotReply, ReplyBytes, Matches, Cut, TurnedAway;
    if s.lcc.SendError? {
      ToldAtOnce(s, action.railcomOff);
      hide SlotInv, Step;
    }
  }

  lemma NewReply(s: Sys, action: Action, r: Reply)
    requires Ids(s) && r in Step(s, action).replies && r !in s.replies
    ensures action.Lcc? && (s.lcc.SendError? || s.lcc.FlushSend?)
    ensures r == if s.lcc.SendError? then ErrorOf(s, s.lcc.id, s.lcc.error) else Reply(s.owner, SlotReply(s.slot))
  {
    hide ErrorOf, SlotReply, Claimed, Completed, Ids;
    if action.Lcc? {
      RepliesLcc(s, action.railcomOff);
    }
    hide StepLcc;
  }

  lemma RepliesLcc(s: Sys, off: bool)
    requires Ids(s)
    ensures StepLcc(s, off).replies == s.replies
      + if s.lcc.SendError? then [ErrorOf(s, s.lcc.id, s.lcc.error)]
        else if s.lcc.FlushSend? then [Reply(s.owner, SlotReply(s.slot))] else []
  {
    hide ErrorOf, SlotReply, Claimed;
  }

  /** An error reply that is on its way or sent has its reason in the run. */
  ghost predicate Justified(actions: seq<Action>) {
    var s := After(actions);
    && (forall id, e :: TurningAway(s.lcc, id, e) ==> Refused(actions, id, e))
    && (forall r :: r in s.replies && r.id !in s.answers ==> exists e :: Refused(actions, r.id, e) && ToldError(s, r.id, e))
  }

  lemma {:induction false} RunJustified(actions: seq<Action>)
    ensures Justified(actions)
    decreases |actions|
  {
    if actions != [] {
      var front, x := actions[..|actions| - 1], actions[|actions| - 1];
      assert actions == front + [x];
      RunJustified(front);
      RunHolds(front);
      StepJustified(front, x);
    }
  }

  lemma StepJustified(front: seq<Action>, x: Action)
    requires Justified(front) && Inv(After(front))
    ensures Justified(front + [x])
  {
    var s, all := After(front), front + [x];
    AfterMore(front, x);
    var t := After(all);
    hide After, Inv, Step, TurnsAway, TurningAway, Refused;
    forall id, e | TurningAway(t.lcc, id, e)
      ensures Refused(all, id, e)
    {
      InvIds(s);
      TurningBefore(s, x, id, e);
      RefusedMore(front, x, id, e);
    }
    forall r | r in t.replies && r.id !in t.answers
      ensures exists e :: Refused(all, r.id, e) && ToldError(t, r.id, e)
    {
      ReplyJustified(front, x, r);
    }
  }

  lemma ReplyJustified(front: seq<Action>, x: Action, r: Reply)
    requires Justified(front) && Inv(After(front))
    requires var t := After(front + [x]); r in t.replies && r.id !in t.answers
    ensures exists e :: Refused(front + [x], r.id, e) && ToldError(After(front + [x]), r.id, e)
  {
    var s, all := After(front), front + [x];
    AfterMore(front, x);
    var t := After(all);
    if r in s.replies {
      Accounting(s, x);
      AnswerStep(s, x);
      hide After, Inv, Step, TurnsAway, TurningAway, Refused, ToldError, SameAccount, TakesUp, Replies, Settled;
      NotAnsweredBefore(s, t, r);
      var e :| Refused(front, r.id, e) && ToldError(s, r.id, e);
      RefusedMore(front, x, r.id, e);
      HistoryGrows(s, t);
      StaysTold(s, t, r.id, e);
    } else {
      hide After, Inv, Step, TurnsAway, TurningAway, Refused, ToldError;
      ToldBefore(s, x, r);
      TurningError(s.lcc);
      RefusedMore(front, x, r.id, s.lcc.error);
    }
  }

  lemma TurningError(l: LccPc)
    requires l.SendError?
    ensures TurningAway(l, l.id, l.error)
  {
  }

  lemma InvIds(s: Sys)
    requires Inv(s)
    ensures Ids(s)
  {
  }

  lemma NotAnsweredBefore(s: Sys, t: Sys, r: Reply)
    requires r in s.replies && Settled(s, t) && r.id !in t.answers
    ensures r.id !in s.answers
  {
    ReplyIn(s);
  }

  lemma AfterMore(actions: seq<Action>, x: Action)
    ensures After(actions + [x]) == Step(After(actions), x)
  {
    hide Step;
    assert (actions + [x])[..|actions|] == actions;
  }

  lemma {:induction false} RefusedIsRefusing(actions: seq<Action>, id: nat, e: u16)
    requires Refused(actions, id, e)
    ensures Refusing(After(actions), id, e)
    decreases |actions|
  {
    var front, x := actions[..|actions| - 1], actions[|actions| - 1];
    RunHolds(front);
    hide Refusing, TurnsAway, Step, Inv;
    if Refused(front, id, e) {
      RefusedIsRefusing(front, id, e);
    }
    RefusingStep(After(front), x, id, e);
  }

  ghost predicate TurnedDown(actions: seq<Action>, id: nat) { exists e :: Refused(actions, id, e) }

  lemma RepliedFate(actions: seq<Action>, r: Reply)
    requires Justified(actions) && Inv(After(actions)) && r in After(actions).replies
    ensures TurnedDown(actions, r.id) || (r.id in After(actions).answers && Honest(After(actions), r))
  {
    var s := After(actions);
    hide After, SlotInv, RailInv, AnsweredOnce, OneEach, Honest, ErrorInv, ToldError, TurningAway;
    if r.id !in s.answers {
      var e :| Refused(actions, r.id, e) && ToldError(s, r.id, e);
      assert TurnedDown(actions, r.id);
    }
  }

  /** The fate of a request the LCC task is done with, after any run. It was turned away if its address is outside
      the space, if it found the slot taken, or if its hook found the RailCom task off or busy: then its reply says
      which. If none of that happened it holds the slot, or has been replied to with what its read ended with. */
  lemma FateOfRequest(actions: seq<Action>, id: nat)
    requires id < |After(actions).asked| && (After(actions).lcc.Free? || After(actions).lcc.FlushLoad?)
    ensures var s := After(actions);
      && (forall e :: Refused(actions, id, e) ==> ToldError(s, id, e))
      && (TurnedDown(actions, id) || (s.owner == id && s.slot.state != Idle)
          || (id in s.answers && exists r :: r in s.replies && r.id == id && Honest(s, r)))
  {
    var s := After(actions);
    RunHolds(actions);
    RunJustified(actions);
    hide After, SlotInv, RailInv, AnsweredOnce, Honest, ErrorInv, ToldError, TurnedDown, Refused, Justified;
    forall e | Refused(actions, id, e)
      ensures ToldError(s, id, e)
    {
      RefusedIsRefusing(actions, id, e);
    }
    assert id in Waiting(s) + Replied(s);
    if id in Replied(s) {
      var i :| 0 <= i < |s.replies| && s.replies[i].id == id;
      RepliedFate(actions, s.replies[i]);
    }
  }

  // ---- a request that nothing stands in the way of ---------------------------------------

  /** Steps of the two tasks alone, with the RailCom task on. */
  ghost predicate Undisturbed(more: seq<Action>) {
    forall x :: x in more ==> x == Lcc(false) || x.Rail? || x.ReadEnds?
  }

  function LccSteps(more: seq<Action>): nat {
    if more == [] then 0 else LccSteps(more[..|more| - 1]) + if more[|more| - 1].Lcc? then 1 else 0
  }

  /** The LCC task's way from a request to a claimed slot. */
  ghost function PcAfter(n: nat, id: nat): LccPc {
    if n == 0 then LoadState(id) else if n == 1 then WriteSlot(id) else if n == 2 then StorePending(id)
    else if n == 3 then CallHook(id) else if n == 4 then WriteRailRequest(id) else if n == 5 then StoreRailPending(id)
    else Free
  }

  /** How far request `id` has come after `n` of the LCC task's steps. */
  ghost predicate OnItsWay(s: Sys, n: nat, id: nat) {
    && s.lcc == PcAfter(n, id)
    && (n < 3 ==> s.slot.state == Idle)
    && (n <= 3 ==> !s.busy)
    && (3 <= n ==> s.owner == id && Matches(s) && (s.slot.state == Pending || (6 <= n && Finished(s, id))))
    && (3 <= n < 6 ==> s.slot.state == Pending)
  }

  lemma WayLcc(s: Sys, n: nat, id: nat)
    requires Inv(s) && OnItsWay(s, n, id)
    ensures OnItsWay(StepLcc(s, false), n + 1, id)
  {
    hide RailInv, OneEach, AnsweredOnce, Honest, ErrorInv, SlotReply, ErrorOf, Cut;
  }

  lemma WayRail(s: Sys, x: Action, n: nat, id: nat)
    requires Inv(s) && OnItsWay(s, n, id) && (x.Rail? || x.ReadEnds?)
    ensures OnItsWay(Step(s, x), n, id)
  {
    hide OneEach, AnsweredOnce, Honest, ErrorInv, StepLcc, Cut;
    if Finished(s, id) {
      StaysFinished(s, x, id);
    }
  }

  /** A request within its space that comes while the slot is free and the RailCom task is not busy gets the slot
      after three steps of the LCC task and holds it after six, when it is pending or its read is over, however the
      RailCom task interleaves, and has no reply by then. */
  lemma {:induction false} TakenUp(before: seq<Action>, a: Asked, more: seq<Action>)
    requires var s := After(before); s.lcc.Free? && s.slot.state == Idle && !s.busy
    requires a.req.addr < a.size && Undisturbed(more)
    ensures var s, t := After(before), After(before + [Ask(a)] + more); var id := |s.asked|;
      && OnItsWay(t, LccSteps(more), id) && t.asked == s.asked + [a]
      && (forall r :: r in t.replies ==> r.id != id)
    decreases |more|
  {
    hide After, Inv, OnItsWay, StepLcc, StepRail;
    var id := |After(before).asked|;
    var start := before + [Ask(a)];
    if more == [] {
      assert start + more == start;
      AfterMore(before, Ask(a));
      RunHolds(before);
      WayStarts(After(before), a);
    } else {
      var front, x := more[..|more| - 1], more[|more| - 1];
      assert start + more == start + front + [x];
      assert x in more && forall y :: y in front ==> y in more;
      TakenUp(before, a, front);
      AfterMore(start + front, x);
      RunHolds(start + front);
      var s := After(start + front);
      InvIds(s);
      if x.Lcc? {
        WayLcc(s, LccSteps(front), id);
        WayReplies(s, LccSteps(front), id);
      } else {
        WayRail(s, x, LccSteps(front), id);
        QuietRail(s);
        QuietEnd(s, x);
      }
    }
  }

  lemma QuietEnd(s: Sys, x: Action)
    requires Ids(s)
    ensures x.ReadEnds? ==> Step(s, x).replies == s.replies && Step(s, x).asked == s.asked
  {
    hide StepLcc, StepRail;
  }

  lemma WayStarts(s: Sys, a: Asked)
    requires Inv(s) && s.lcc.Free? && s.slot.state == Idle && !s.busy && a.req.addr < a.size
    ensures var t := Step(s, Ask(a)); OnItsWay(t, 0, |s.asked|) && t.asked == s.asked + [a]
    ensures forall r :: r in Step(s, Ask(a)).replies ==> r.id != |s.asked|
  {
    hide SlotInv, RailInv, AnsweredOnce, Honest, Waiting;
    ReplyIn(s);
    hide Replied;
  }

  lemma WayReplies(s: Sys, n: nat, id: nat)
    requires Inv(s) && OnItsWay(s, n, id)
    ensures StepLcc(s, false).replies == s.replies && StepLcc(s, false).asked == s.asked
  {
    RepliesLcc(s, false);
    hide Inv, ErrorOf, SlotReply, Claimed;
  }

  /** How far the reply to the finished request `id` has come after `n` of the LCC task's steps. */
  ghost predicate BeingTold(s: Sys, n: nat, id: nat) {
    && (n == 0 ==> s.lcc == FlushLoad) && (n == 1 ==> s.lcc == FlushSend) && (n == 2 ==> s.lcc == FlushStore)
    && (n <= 2 ==> s.slot.state == Done && s.owner == id)
    && (2 <= n ==> exists r :: r in s.replies && r.id == id)
    && (3 <= n ==> s.lcc == Free && s.slot.state == Idle)
  }

  lemma ToldLcc(s: Sys, n: nat, id: nat)
    requires Inv(s) && BeingTold(s, n, id)
    ensures BeingTold(StepLcc(s, false), n + 1, id)
  {
    RepliesLcc(s, false);
    var t := StepLcc(s, false);
    if n == 1 {
      assert t.replies[|s.replies|].id == id;
      assert t.replies[|s.replies|] in t.replies;
    } else if 2 <= n {
      var r :| r in s.replies && r.id == id;
      assert r in t.replies;
    }
    hide Inv, SlotReply, ErrorOf, Claimed;
  }

  lemma ToldRail(s: Sys, x: Action, n: nat, id: nat)
    requires Inv(s) && BeingTold(s, n, id) && (x.Rail? || x.ReadEnds?)
    ensures BeingTold(Step(s, x), n, id)
  {
    QuietRail(s);
    QuietEnd(s, x);
    hide OneEach, AnsweredOnce, Honest, ErrorInv, StepLcc, Cut, Matches;
    if 2 <= n {
      var r :| r in s.replies && r.id == id;
      assert r in Step(s, x).replies;
    }
  }

  /** Once a request is finished the LCC task's next look at the slot sends its reply in two steps and frees the slot
      in three, however the RailCom task interleaves. */
  lemma {:induction false} FinishedIsTold(before: seq<Action>, more: seq<Action>)
    requires var s := After(before); s.lcc.Free? && s.slot.state == Done
    requires Undisturbed(more)
    ensures BeingTold(After(before + [Flush] + more), LccSteps(more), After(before).owner)
    decreases |more|
  {
    hide After, Inv, BeingTold, StepLcc, StepRail;
    var start, id := before + [Flush], After(before).owner;
    RunHolds(before);
    InvIds(After(before));
    if more == [] {
      assert start + more == start;
      AfterMore(before, Flush);
      TellingStarts(After(before));
    } else {
      var front, x := more[..|more| - 1], more[|more| - 1];
      assert start + more == start + front + [x];
      assert x in more && forall y :: y in front ==> y in more;
      FinishedIsTold(before, front);
      AfterMore(start + front, x);
      RunHolds(start + front);
      var s := After(start + front);
      InvIds(s);
      if x.Lcc? {
        ToldLcc(s, LccSteps(front), id);
      } else {
        ToldRail(s, x, LccSteps(front), id);
      }
    }
  }

  lemma TellingStarts(s: Sys)
    requires Ids(s) && s.lcc.Free? && s.slot.state == Done
    ensures BeingTold(Step(s, Flush), 0, s.owner)
  {
  }
}
