/** Reading a CV on the main over RailCom: attempts, copies and answers. */
module PomRead {
  import opened Bits
  import opened Wrappers
  import P = Packet

  const COPIES: nat := 2
  const ATTEMPT_MS: nat := 250
  const ATTEMPTS: nat := 4

  /** A cutout: the first word of the packet it followed, and the value its channel 2 decodes to, if it is one. */
  datatype Cutout = Cutout(packet: u32, value: Option<u8>)

  datatype Step = Wait | Send | Done | Failed

  datatype Read = Read(packet: u32, sentMs: u32, attempts: nat, answers: nat, done: bool, value: u8)

  datatype Outcome = Outcome(r: Read, step: Step)

  /** The read of a packet, known by its first encoded word. */
  function Started(data: seq<u8>): Read
    requires |data| < P.MAX_PACKET_DATA
  {
    var words := P.Encoded(data);
    Read(if words != [] then words[0] else 0, 0, 0, 0, false, 0)
  }

  function AfterCutout(r: Read, c: Cutout): Outcome {
    if r.done then Outcome(r, Done)
    else if r.attempts == 0 || c.packet != r.packet then Outcome(r, Wait)
    else if c.value.Some? then Outcome(r.(done := true, value := c.value.value), Done)
    else Outcome(r.(answers := if r.answers < COPIES then r.answers + 1 else r.answers), Wait)
  }

  /** The current attempt is over: it has had all its answers, or its time. */
  predicate Over(r: Read, now: u32) { r.attempts == 0 || COPIES <= r.answers || ATTEMPT_MS <= Wrap(now - r.sentMs) }

  function AfterPoll(r: Read, now: u32): Outcome {
    if r.done then Outcome(r, Done)
    else if !Over(r, now) then Outcome(r, Wait)
    else if ATTEMPTS <= r.attempts then Outcome(r, Failed)
    else Outcome(r.(attempts := r.attempts + 1, answers := 0, sentMs := now), Send)
  }

  // ---- runs ----------------------------------------------------------------------------------

  datatype Event = Poll(now: u32) | Cut(c: Cutout)

  function Apply(r: Read, e: Event): Outcome {
    match e
    case Poll(now) => AfterPoll(r, now)
    case Cut(c) => AfterCutout(r, c)
  }

  function After(start: Read, events: seq<Event>): Read {
    if events == [] then start else Apply(After(start, events[..|events| - 1]), events[|events| - 1]).r
  }

  /** The answer to event `k`. */
  function StepAt(start: Read, events: seq<Event>, k: nat): Step
    requires k < |events|
  {
    Apply(After(start, events[..k]), events[k]).step
  }

  function Sends(start: Read, events: seq<Event>): nat {
    if events == [] then 0
    else Sends(start, events[..|events| - 1]) + if StepAt(start, events, |events| - 1) == Send then 1 else 0
  }

  /** Event `k` is a cutout behind one of our packets, after the first was sent, that carries a value. */
  ghost predicate Answers(start: Read, events: seq<Event>, k: nat) {
    && k < |events| && events[k].Cut? && events[k].c.packet == start.packet && events[k].c.value.Some?
    && exists j :: 0 <= j < k && events[j].Poll?
  }

  ghost predicate Fresh(r: Read) { r.attempts == 0 && r.answers == 0 && !r.done }

  /** A read stands where its events have brought it: it has made as many attempts as packets were asked for, at
      most four, and it is done exactly if a value came behind one of them, with the first such value. */
  ghost predicate Stands(start: Read, events: seq<Event>) {
    var r := After(start, events);
    && r.packet == start.packet
    && r.attempts == Sends(start, events) <= ATTEMPTS
    && (r.attempts == 0 <==> forall j :: 0 <= j < |events| ==> !events[j].Poll?)
    && (r.done <==> exists k: nat :: Answers(start, events, k))
    && (r.done ==> exists k: nat :: Answers(start, events, k) && r.value == events[k].c.value.value
                               && forall j: nat :: j < k ==> !Answers(start, events, j))
  }

  lemma AnswersStable(start: Read, events: seq<Event>, e: Event, k: nat)
    requires k < |events|
    ensures Answers(start, events + [e], k) == Answers(start, events, k)
  {
    var all := events + [e];
    if Answers(start, all, k) {
      var j :| 0 <= j < k && all[j].Poll?;
      assert events[j].Poll?;
    }
    if Answers(start, events, k) {
      var j :| 0 <= j < k && events[j].Poll?;
      assert all[j].Poll?;
    }
  }

  lemma LastAnswer(start: Read, events: seq<Event>, e: Event)
    ensures Answers(start, events + [e], |events|) <==>
            e.Cut? && e.c.packet == start.packet && e.c.value.Some? && exists j :: 0 <= j < |events| && events[j].Poll?
  {
    var all := events + [e];
    if exists j :: 0 <= j < |events| && events[j].Poll? {
      var j :| 0 <= j < |events| && events[j].Poll?;
      assert all[j].Poll?;
    }
    if Answers(start, all, |events|) {
      var j :| 0 <= j < |events| && all[j].Poll?;
      assert events[j].Poll?;
    }
  }

  lemma RunOne(start: Read, events: seq<Event>, e: Event)
    ensures var o := Apply(After(start, events), e);
      && After(start, events + [e]) == o.r
      && Sends(start, events + [e]) == Sends(start, events) + if o.step == Send then 1 else 0
  {
    hide Apply;
    assert (events + [e])[..|events|] == events;
  }

  lemma OneEvent(start: Read, events: seq<Event>, e: Event)
    requires Fresh(start) && Stands(start, events)
    ensures Stands(start, events + [e])
  {
    var all, r := events + [e], After(start, events);
    RunOne(start, events, e);
    LastAnswer(start, events, e);
    forall k: nat | k < |events|
      ensures Answers(start, all, k) == Answers(start, events, k)
    {
      AnswersStable(start, events, e, k);
    }
    hide After, Sends, Answers, Over;
    AnswersBound(start, all);
    assert forall j :: 0 <= j < |events| ==> all[j] == events[j];
    assert all[|events|] == e;
    AnswersBound(start, events);
    if r.done {
      var k: nat :| Answers(start, events, k) && r.value == events[k].c.value.value
                    && forall j: nat :: j < k ==> !Answers(start, events, j);
      assert Answers(start, all, k);
    } else if Apply(r, e).r.done {
      assert Answers(start, all, |events|);
    }
  }

  lemma AnswersBound(start: Read, events: seq<Event>)
    ensures forall k: nat :: Answers(start, events, k) ==> k < |events|
  {
  }

  /** However polls and cutouts follow each other. */
  lemma {:induction false} ReadStands(start: Read, events: seq<Event>)
    requires Fresh(start)
    ensures Stands(start, events)
    decreases |events|
  {
    if events != [] {
      var front := events[..|events| - 1];
      ReadStands(start, front);
      assert front + [events[|events| - 1]] == events;
      hide Stands;
      OneEvent(start, front, events[|events| - 1]);
    } else {
      hide Answers;
      AnswersBound(start, events);
    }
  }

  /** A poll fails exactly if all four packets were sent, no value came, and the last attempt is over; and a poll
      that finds the attempt over never just waits. */
  lemma FailsExactly(start: Read, events: seq<Event>, now: u32)
    requires Fresh(start)
    ensures var r := After(start, events);
      && (AfterPoll(r, now).step == Failed <==>
            Sends(start, events) == ATTEMPTS && !(exists k: nat :: Answers(start, events, k)) && Over(r, now))
      && (Over(r, now) ==> AfterPoll(r, now).step != Wait)
  {
    hide Answers, After, Sends, Over;
    ReadStands(start, events);
  }

  // ---- when an attempt is over -------------------------------------------------------------------

  /** The clock at the last poll that sent a packet. */
  function LastSent(start: Read, events: seq<Event>): u32 {
    if events == [] then start.sentMs
    else
      var n := |events| - 1;
      if events[n].Poll? && StepAt(start, events, n) == Send then events[n].now else LastSent(start, events[..n])
  }

  /** How many cutouts behind the read's own packets have brought no value since then. */
  function Silent(start: Read, events: seq<Event>): nat {
    if events == [] then 0
    else
      var n := |events| - 1;
      match events[n]
      case Poll(_) => if StepAt(start, events, n) == Send then 0 else Silent(start, events[..n])
      case Cut(c) =>
        Silent(start, events[..n])
          + if c.packet == start.packet && c.value.None? && 0 < Sends(start, events[..n]) then 1 else 0
  }

  ghost predicate AttemptStands(start: Read, events: seq<Event>) {
    var r, n := After(start, events), Silent(start, events);
    r.packet == start.packet && (0 < r.attempts <==> 0 < Sends(start, events)) && r.sentMs == LastSent(start, events)
    && (!r.done ==> r.answers == if n < 2 then n else 2)
  }

  lemma AttemptStep(start: Read, events: seq<Event>, e: Event)
    requires AttemptStands(start, events)
    ensures AttemptStands(start, events + [e])
  {
    RunOne(start, events, e);
    hide After, Sends, Over;
    assert (events + [e])[..|events|] == events;
  }

  lemma {:induction false} RunAttempt(start: Read, events: seq<Event>)
    requires Fresh(start)
    ensures AttemptStands(start, events)
    decreases |events|
  {
    if events != [] {
      var front := events[..|events| - 1];
      RunAttempt(start, front);
      assert front + [events[|events| - 1]] == events;
      hide AttemptStands;
      AttemptStep(start, front, events[|events| - 1]);
    }
  }

  /** An attempt is over exactly if no packet was sent yet, two cutouts behind its packets have brought no value, or 250 ms
      of the wrapping clock have gone by since it was sent. */
  lemma {:induction false} OverMeans(start: Read, events: seq<Event>, now: u32)
    requires Fresh(start) && !After(start, events).done
    ensures Over(After(start, events), now) <==>
            Sends(start, events) == 0 || 2 <= Silent(start, events) || 250 <= Wrap(now - LastSent(start, events))
  {
    hide After, Sends, Silent, LastSent, Wrap;
    RunAttempt(start, events);
    var r, n := After(start, events), Silent(start, events);
    assert COPIES <= r.answers <==> 2 <= n;
  }

  // ---- how long it takes -------------------------------------------------------------------------

  /** The times of the first and the last poll, -1 if there was none; `times` are the events' real times. */
  function FirstPoll(events: seq<Event>, times: seq<nat>): int
    requires |events| == |times|
  {
    if events == [] then -1 else if events[0].Poll? then times[0] else FirstPoll(events[1..], times[1..])
  }

  function LastPoll(events: seq<Event>, times: seq<nat>): int
    requires |events| == |times|
  {
    if events == [] then -1
    else
      var n := |events| - 1;
      if events[n].Poll? then times[n] else LastPoll(events[..n], times[..n])
  }

  /** Polls come at most `gap` apart and read the real time on a clock that wraps. */
  ghost predicate Regular(events: seq<Event>, times: seq<nat>, gap: nat)
    requires |events| == |times|
    decreases |events|
  {
    events == [] ||
    var n := |events| - 1;
    && Regular(events[..n], times[..n], gap)
    && (events[n].Poll? ==>
          && events[n].now == Wrap(times[n])
          && var last := LastPoll(events[..n], times[..n]);
             last == -1 || last <= times[n] <= last + gap)
  }

  /** A poll has ended the read. */
  ghost predicate Ended(start: Read, events: seq<Event>)
    decreases |events|
  {
    events != [] &&
    var n := |events| - 1;
    || Ended(start, events[..n])
    || (events[n].Poll? && var step := Apply(After(start, events[..n]), events[n]).step; step == Done || step == Failed)
  }

  /** The latest time at which attempt `k` is sent, counted from the first poll. */
  function SentBy(k: int, gap: nat): int { (k - 1) * (ATTEMPT_MS + gap) }

  /** The current attempt was sent at real time `sent`, in time, and the last poll came before it was over. */
  ghost predicate OnTime(r: Read, first: int, last: int, sent: int, gap: nat) {
    && 1 <= r.attempts <= ATTEMPTS && 0 <= first <= sent <= first + SentBy(r.attempts, gap)
    && r.sentMs == Wrap(sent) && sent <= last < sent + ATTEMPT_MS
  }

  ghost predicate Pace(r: Read, first: int, last: int, gap: nat) {
    if first == -1 then last == -1 && r.attempts == 0 && !r.done else exists sent :: OnTime(r, first, last, sent, gap)
  }

  lemma ElapsedReal(now: nat, sent: nat)
    requires sent <= now < sent + 0x1_0000_0000
    ensures Wrap(Wrap(now) - Wrap(sent)) == now - sent
  {
    hide Wrap;
    WrapDifference(now, sent);
    WrapSmall(now - sent);
  }

  /** A poll that does not end the read keeps the pace. */
  lemma PollPace(r: Read, t: nat, first: int, last: int, gap: nat)
    requires Pace(r, first, last, gap) && ATTEMPT_MS + gap <= 0x1_0000_0000
    requires last == -1 || last <= t <= last + gap
    requires var step := AfterPoll(r, Wrap(t)).step; step != Done && step != Failed
    ensures Pace(AfterPoll(r, Wrap(t)).r, if first == -1 then t else first, t, gap)
  {
    hide Wrap;
    var r2 := AfterPoll(r, Wrap(t)).r;
    if first == -1 {
      assert OnTime(r2, t, t, t, gap);
    } else {
      var sent :| OnTime(r, first, last, sent, gap);
      ElapsedReal(t, sent);
      if r2.attempts == r.attempts {
        assert OnTime(r2, first, t, sent, gap);
      } else {
        assert SentBy(r.attempts + 1, gap) == SentBy(r.attempts, gap) + ATTEMPT_MS + gap;
        assert OnTime(r2, first, t, t, gap);
      }
    }
  }

  lemma CutPace(r: Read, c: Cutout, first: int, last: int, gap: nat)
    requires Pace(r, first, last, gap)
    ensures Pace(AfterCutout(r, c).r, first, last, gap)
  {
    hide SentBy, Wrap;
    if first != -1 {
      var sent :| OnTime(r, first, last, sent, gap);
      assert OnTime(AfterCutout(r, c).r, first, last, sent, gap);
    }
  }

  lemma {:induction false} FirstStays(events: seq<Event>, times: seq<nat>)
    requires |events| == |times| && events != []
    ensures var n := |events| - 1; var before := FirstPoll(events[..n], times[..n]);
      FirstPoll(events, times) == if before == -1 && events[n].Poll? then times[n] else before
    decreases |events|
  {
    if !events[0].Poll? && |events| > 1 {
      var n := |events| - 1;
      FirstStays(events[1..], times[1..]);
      assert events[1..][..n - 1] == events[..n][1..] && times[1..][..n - 1] == times[..n][1..];
    }
  }

  lemma {:induction false} KeepsPace(start: Read, events: seq<Event>, times: seq<nat>, gap: nat)
    requires Fresh(start) && |events| == |times| && Regular(events, times, gap) && ATTEMPT_MS + gap <= 0x1_0000_0000
    requires !Ended(start, events)
    ensures Pace(After(start, events), FirstPoll(events, times), LastPoll(events, times), gap)
    decreases |events|
  {
    hide Pace, FirstPoll, AfterPoll, AfterCutout;
    if events == [] {
      NoPolls(start, gap);
    } else {
      var n := |events| - 1;
      KeepsPace(start, events[..n], times[..n], gap);
      FirstStays(events, times);
      var r, first, last := After(start, events[..n]), FirstPoll(events[..n], times[..n]), LastPoll(events[..n], times[..n]);
      match events[n]
      case Poll(now) => PollPace(r, times[n], first, last, gap);
      case Cut(c) => CutPace(r, c, first, last, gap);
    }
  }

  lemma NoPolls(start: Read, gap: nat)
    requires Fresh(start)
    ensures Pace(start, FirstPoll([], []), -1, gap)
  {
  }

  /** Whatever is heard, a read polled at most `gap` ms apart has ended, with a value or without, by the first poll
      that comes four attempts' time and three gaps after the first. */
  lemma EndsInTime(start: Read, events: seq<Event>, times: seq<nat>, gap: nat)
    requires Fresh(start) && |events| == |times| && Regular(events, times, gap) && ATTEMPT_MS + gap <= 0x1_0000_0000
    requires FirstPoll(events, times) + ATTEMPTS * ATTEMPT_MS + (ATTEMPTS - 1) * gap <= LastPoll(events, times)
    ensures Ended(start, events)
  {
    hide Ended, FirstPoll, LastPoll, Regular, After;
    if !Ended(start, events) {
      KeepsPace(start, events, times, gap);
      SentInOrder(After(start, events).attempts, gap);
    }
  }

  lemma SentInOrder(k: nat, gap: nat)
    ensures k <= ATTEMPTS ==> SentBy(k, gap) <= 3 * ATTEMPT_MS + 3 * gap
  {
  }

  // ---- the read ---------------------------------------------------------------------------------

  class Reader {
    var packet: u32
    var sentMs: u32
    var attempts: nat
    var answers: nat
    var done: bool
    var value: u8

    ghost function View(): Read
      reads this
    {
      Read(packet, sentMs, attempts, answers, done, value)
    }

    constructor (data: seq<u8>)
      requires |data| < P.MAX_PACKET_DATA
      ensures View() == Started(data) && Fresh(View())
    {
      var words := P.Encoded(data);
      packet := if words != [] then words[0] else 0;
      sentMs, attempts, answers, done, value := 0, 0, 0, false, 0;
    }

    method HearCutout(c: Cutout) returns (step: Step)
      modifies this
      ensures Outcome(View(), step) == AfterCutout(old(View()), c)
    {
      if done {
        return Done;
      }
      if attempts == 0 || c.packet != packet {
        return Wait;
      }
      if c.value.Some? {
        done := true;
        value := c.value.value;
        return Done;
      }
      if answers < COPIES {
        answers := answers + 1;
      }
      return Wait;
    }

    method PollAt(now: u32) returns (step: Step)
      modifies this
      ensures Outcome(View(), step) == AfterPoll(old(View()), now)
    {
      if done {
        return Done;
      }
      var next := attempts == 0 || answers >= COPIES || Wrap(now - sentMs) >= ATTEMPT_MS;
      if !next {
        return Wait;
      }
      if attempts >= ATTEMPTS {
        return Failed;
      }
      attempts := attempts + 1;
      answers := 0;
      sentMs := now;
      return Send;
    }
  }
}
