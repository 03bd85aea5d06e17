/** Datagram transport: fragments on the way out, one reassembly buffer per node on the way in. */
module Datagram {
  import opened Bits

  const DATAGRAM_MAX: nat := 72
  const ERR_PERMANENT: u16 := 0x1000
  const ERR_OUT_OF_ORDER: u16 := 0x2040

  datatype Kind = One | First | Middle | Final

  /** A datagram frame for this node: its kind and sender, from the CAN ID, and up to 8 data bytes. */
  datatype Frame = Frame(kind: Kind, src: u16, data: seq<u8>)

  /** What a frame makes the node send back. */
  datatype Answer = Ok(dst: u16, flags: u8) | Rejected(dst: u16, error: u16)

  /** The protocol handler's verdict on a whole datagram: an error to reject it with, or flags to accept it. */
  datatype Verdict = Verdict(error: u16, flags: u8)

  /** A whole datagram delivered to the dispatcher. */
  datatype Delivery = Delivery(src: u16, payload: seq<u8>)

  type Protocol = seq<u8> -> Verdict

  // ---- CAN identifiers ---------------------------------------------------------

  function FrameType(k: Kind): nat { match k case One => 2 case First => 3 case Middle => 4 case Final => 5 }

  /** lcc_frame_datagram_id: priority and OpenLCB bits, frame type, destination and source alias. */
  function CanId(k: Kind, dst: nat, src: nat): nat
    requires dst < 0x1000 && src < 0x1000
  {
    0x1800_0000 + FrameType(k) * 0x100_0000 + dst * 0x1000 + src
  }

  /** The fields the receiving side masks out of the CAN ID are the ones put in. */
  lemma CanIdFields(k: Kind, dst: nat, src: nat)
    requires dst < 0x1000 && src < 0x1000
    ensures var id := CanId(k, dst, src);
      id % 0x1000 == src && id / 0x1000 % 0x1000 == dst && id / 0x1000 / 0x1000 % 8 == FrameType(k)
      && id / 0x1000 / 0x1000 / 8 == 3
  {
    var id := CanId(k, dst, src);
    assert id / 0x1000 == 0x18000 + FrameType(k) * 0x1000 + dst;
    assert id / 0x1000 / 0x1000 == 24 + FrameType(k);
  }

  // ---- reassembly ----------------------------------------------------------------

  /** The reassembly buffer's contents. */
  datatype Rx = Rx(active: bool, src: u16, data: seq<u8>)

  const NO_RX := Rx(false, 0, [])

  /** What one frame does to the buffer, and the datagram or the rejection it leads to. */
  datatype Outcome = Nothing | Reject(error: u16) | Deliver(payload: seq<u8>)

  function Receive(rx: Rx, f: Frame): (Rx, Outcome) {
    match f.kind
    case One => (rx.(active := false, data := []), Deliver(f.data))
    case First => (Rx(true, f.src, f.data), Nothing)
    case _ =>
      if !rx.active || rx.src != f.src then (rx, Reject(ERR_OUT_OF_ORDER))
      else if DATAGRAM_MAX < |rx.data| + |f.data| then (rx.(active := false, data := []), Reject(ERR_PERMANENT))
      else if f.kind == Middle then (rx.(data := rx.data + f.data), Nothing)
      else (rx.(active := false, data := []), Deliver(rx.data + f.data))
  }

  /** The answer to a whole datagram: an empty one is refused outright. */
  function Answered(src: u16, payload: seq<u8>, p: Protocol): Answer {
    if payload == [] then Rejected(src, ERR_PERMANENT)
    else if p(payload).error != 0 then Rejected(src, p(payload).error)
    else Ok(src, p(payload).flags)
  }

  function AnswersTo(src: u16, o: Outcome, p: Protocol): seq<Answer> {
    match o
    case Nothing => []
    case Reject(e) => [Rejected(src, e)]
    case Deliver(payload) => [Answered(src, payload, p)]
  }

  /** A datagram in progress is answered not at all, one that ends or breaks off once and to its sender: with OK and the
      protocol's flags exactly if it is whole, not empty and the protocol takes it; else with the reason. */
  lemma AnsweredOnce(src: u16, o: Outcome, p: Protocol)
    ensures var a := AnswersTo(src, o, p);
      && (a == [] <==> o.Nothing?) && |a| <= 1 && (a != [] ==> a[0].dst == src)
      && (forall flags :: a == [Ok(src, flags)] <==>
            o.Deliver? && o.payload != [] && p(o.payload).error == 0 && flags == p(o.payload).flags)
      && (forall e :: a == [Rejected(src, e)] <==>
            || (o.Reject? && e == o.error) || (o.Deliver? && o.payload == [] && e == 0x1000)
            || (o.Deliver? && o.payload != [] && e != 0 && e == p(o.payload).error))
  {
  }

  class Node {
    const buf: array<u8>
    var len: nat
    var active: bool
    var src: u16
    var answers: seq<Answer>
    var deliveries: seq<Delivery>

    ghost predicate Valid()
      reads this
    {
      buf.Length == DATAGRAM_MAX && len <= DATAGRAM_MAX
    }

    ghost function Contents(): Rx
      requires Valid()
      reads this, buf
    {
      Rx(active, src, buf[..len])
    }

    constructor ()
      ensures Valid() && Contents() == NO_RX && answers == [] && deliveries == [] && fresh(buf)
    {
      buf := new u8[DATAGRAM_MAX](_ => 0);
      len, active, src := 0, false, 0;
      answers, deliveries := [], [];
    }

    /** lcc_datagram_dispatch. */
    method Dispatch(from: u16, payload: seq<u8>, p: Protocol)
      modifies this`answers, this`deliveries
      ensures answers == old(answers) + [Answered(from, payload, p)]
      ensures deliveries == old(deliveries) + [Delivery(from, payload)]
    {
      deliveries := deliveries + [Delivery(from, payload)];
      if |payload| < 1 {
        answers := answers + [Rejected(from, ERR_PERMANENT)];
        return;
      }
      var v := p(payload);
      if v.error != 0 {
        answers := answers + [Rejected(from, v.error)];
      } else {
        answers := answers + [Ok(from, v.flags)];
      }
    }

    method ResetRx()
      requires Valid()
      modifies this`len, this`active
      ensures Valid() && !active && len == 0
    {
      active := false;
      len := 0;
    }

    method Append(data: seq<u8>)
      requires Valid() && len + |data| <= DATAGRAM_MAX
      modifies buf, this`len
      ensures Valid() && buf[..len] == old(buf[..len]) + data
    {
      forall i | 0 <= i < |data| {
        buf[len + i] := data[i];
      }
      len := len + |data|;
    }

    /** lcc_datagram_handle_frame. */
    method HandleFrame(f: Frame, p: Protocol)
      requires Valid() && |f.data| <= 8
      modifies this, buf
      ensures Valid()
      ensures var r := Receive(old(Contents()), f);
        Contents() == r.0 && answers == old(answers) + AnswersTo(f.src, r.1, p)
        && deliveries == old(deliveries) + if r.1.Deliver? then [Delivery(f.src, r.1.payload)] else []
    {
      match f.kind {
        case One =>
          Dispatch(f.src, f.data, p);
          ResetRx();
        case First =>
          src := f.src;
          len := 0;
          active := true;
          if |f.data| <= DATAGRAM_MAX {
            Append(f.data);
          }
        case Middle =>
          if !active || src != f.src {
            answers := answers + [Rejected(f.src, ERR_OUT_OF_ORDER)];
          } else if DATAGRAM_MAX < len + |f.data| {
            answers := answers + [Rejected(f.src, ERR_PERMANENT)];
            ResetRx();
          } else {
            Append(f.data);
          }
        case Final =>
          if !active || src != f.src {
            answers := answers + [Rejected(f.src, ERR_OUT_OF_ORDER)];
          } else if DATAGRAM_MAX < len + |f.data| {
            answers := answers + [Rejected(f.src, ERR_PERMANENT)];
            ResetRx();
          } else {
            Append(f.data);
            Dispatch(f.src, buf[..len], p);
            ResetRx();
          }
      }
    }
  }

  // ---- traces ------------------------------------------------------------------------

  /** The buffer after a trace of frames. */
  function After(frames: seq<Frame>): Rx {
    if frames == [] then NO_RX else Receive(After(frames[..|frames| - 1]), frames[|frames| - 1]).0
  }

  /** What the trace's last frame leads to. */
  function LastOutcome(frames: seq<Frame>): Outcome
    requires frames != []
  {
    Receive(After(frames[..|frames| - 1]), frames[|frames| - 1]).1
  }

  /** One sender's data in a stretch of frames, in order. */
  function DataOf(frames: seq<Frame>, src: u16): seq<u8> {
    if frames == [] then []
    else
      var f := frames[|frames| - 1];
      DataOf(frames[..|frames| - 1], src) + if f.src == src then f.data else []
  }

  /** Frame `j` opened a datagram of `src` that is still open: no FIRST or ONE from anyone and no FINAL of its
      own since. */
  ghost predicate Open(frames: seq<Frame>, j: nat, src: u16) {
    j < |frames| && frames[j].kind == First && frames[j].src == src
    && forall i :: j < i < |frames| ==>
         frames[i].kind != First && frames[i].kind != One && !(frames[i].kind == Final && frames[i].src == src)
  }

  /** `src`'s datagram opened by frame `j` is open and has fitted so far. */
  ghost predicate InFlight(frames: seq<Frame>, j: nat, src: u16) {
    Open(frames, j, src) && |DataOf(frames[j..], src)| <= DATAGRAM_MAX
  }

  ghost predicate FramesFit(frames: seq<Frame>) { forall i :: 0 <= i < |frames| ==> |frames[i].data| <= 8 }

  lemma {:induction false} DataGrows(frames: seq<Frame>, j: nat, src: u16)
    requires j < |frames|
    ensures DataOf(frames[j..], src) == DataOf(frames[..|frames| - 1][j..], src)
              + if frames[|frames| - 1].src == src then frames[|frames| - 1].data else []
  {
    var s := frames[j..];
    assert s[..|s| - 1] == frames[..|frames| - 1][j..];
  }

  /** A datagram in flight is in the buffer, whole. */
  lemma {:induction false} InFlightHeld(frames: seq<Frame>, j: nat, src: u16)
    requires InFlight(frames, j, src)
    ensures After(frames) == Rx(true, src, DataOf(frames[j..], src))
    decreases |frames|
  {
    var n := |frames| - 1;
    var before, f := frames[..n], frames[n];
    DataGrows(frames, j, src);
    if j == n {
      assert before[j..] == [];
    } else {
      assert InFlight(before, j, src);
      InFlightHeld(before, j, src);
    }
  }

  /** The buffer only ever holds a datagram in flight. */
  lemma {:induction false} HeldInFlight(frames: seq<Frame>) returns (j: nat)
    requires FramesFit(frames) && After(frames).active
    ensures InFlight(frames, j, After(frames).src)
    decreases |frames|
  {
    var n := |frames| - 1;
    var before, f := frames[..n], frames[n];
    if f.kind == First {
      j := n;
      DataGrows(frames, n, f.src);
      assert before[n..] == [];
    } else {
      j := HeldInFlight(before);
      InFlightHeld(before, j, After(before).src);
      StillInFlight(frames, j);
    }
  }

  /** Frames that the buffer takes in leave its datagram in flight. */
  lemma StillInFlight(frames: seq<Frame>, j: nat)
    requires frames != [] && After(frames).active && frames[|frames| - 1].kind != First
    requires var before := frames[..|frames| - 1];
      InFlight(before, j, After(before).src) && After(before).data == DataOf(before[j..], After(before).src)
    ensures InFlight(frames, j, After(frames).src)
  {
    hide DataOf;
    DataGrows(frames, j, After(frames[..|frames| - 1]).src);
  }

  /** Frames `j` to the end are one whole datagram of the last frame's sender: opened by its FIRST, not
      broken off since, ended by this FINAL and short enough. */
  ghost predicate Whole(frames: seq<Frame>, j: nat) {
    frames != [] && var n := |frames| - 1;
    frames[n].kind == Final && Open(frames[..n], j, frames[n].src) && |DataOf(frames[j..], frames[n].src)| <= DATAGRAM_MAX
  }

  /** Over any frames from any senders, a FINAL delivers a datagram exactly when it ends one: its payload is
      the in-order concatenation of that sender's frames since its FIRST. */
  lemma Reassembly(frames: seq<Frame>)
    requires FramesFit(frames) && frames != [] && frames[|frames| - 1].kind == Final
    ensures LastOutcome(frames).Deliver? <==> exists j: nat :: Whole(frames, j)
    ensures forall j: nat :: Whole(frames, j) ==> LastOutcome(frames) == Deliver(DataOf(frames[j..], frames[|frames| - 1].src))
  {
    hide DataOf, After;
    var n := |frames| - 1;
    var before, f := frames[..n], frames[n];
    forall j: nat | Whole(frames, j)
      ensures LastOutcome(frames) == Deliver(DataOf(frames[j..], f.src))
    {
      DataGrows(frames, j, f.src);
      InFlightHeld(before, j, f.src);
    }
    if LastOutcome(frames).Deliver? {
      var j := HeldInFlight(before);
      InFlightHeld(before, j, f.src);
      DataGrows(frames, j, f.src);
      assert Whole(frames, j);
    }
  }

  /** Every ONE is a datagram of its own, and no FIRST or MIDDLE delivers anything. */
  lemma OtherFrames(frames: seq<Frame>)
    requires frames != [] && frames[|frames| - 1].kind != Final
    ensures var f := frames[|frames| - 1];
      if f.kind == One then LastOutcome(frames) == Deliver(f.data) else !LastOutcome(frames).Deliver?
  {
    hide After;
  }

  /** Why frame `f` cannot go on with its sender's datagram. */
  ghost predicate Refusal(before: seq<Frame>, f: Frame, e: u16) {
    if exists j: nat :: InFlight(before, j, f.src) then
      e == 0x1000 && exists j: nat :: InFlight(before, j, f.src) && 72 < |DataOf(before[j..], f.src)| + |f.data|
    else e == 0x2040
  }

  /** A MIDDLE or FINAL is out of order exactly if its sender has no datagram in flight, and refused for good exactly if
      it would make that datagram too long; no other frame is rejected. */
  lemma RejectedExactly(frames: seq<Frame>, e: u16)
    requires FramesFit(frames) && frames != []
    ensures var n := |frames| - 1; var before, f := frames[..n], frames[n];
      LastOutcome(frames) == Reject(e) <==> (f.kind == Middle || f.kind == Final) && Refusal(before, f, e)
  {
    hide DataOf, After;
    var n := |frames| - 1;
    var before, f := frames[..n], frames[n];
    forall j: nat | InFlight(before, j, f.src)
      ensures After(before) == Rx(true, f.src, DataOf(before[j..], f.src))
    {
      InFlightHeld(before, j, f.src);
    }
    if After(before).active && After(before).src == f.src {
      var j := HeldInFlight(before);
      assert InFlight(before, j, f.src);
    }
  }

  // ---- sending -------------------------------------------------------------------------

  /** lcc_datagram_send: up to 8 bytes in a ONE, more in a FIRST, MIDDLEs and a FINAL. */
  method Send(src: u16, payload: seq<u8>) returns (frames: seq<Frame>)
    requires |payload| < 0x100
    ensures FramesFit(frames) && (forall i :: 0 <= i < |frames| ==> frames[i].src == src) && DataOf(frames, src) == payload
    ensures payload == [] ==> frames == []
    ensures 0 < |payload| <= 8 ==> frames == [Frame(One, src, payload)]
    ensures 8 < |payload| ==> Fragments(frames)
  {
    hide DataOf, SentSoFar, Fragments;
    frames := [];
    NoFrames(src);
    if |payload| == 0 {
      return;
    }
    if |payload| <= 8 {
      frames := [Frame(One, src, payload)];
      SingleFrame(frames[0]);
      return;
    }
    frames := [Frame(First, src, payload[..8])];
    SendFirst(src, payload);
    var offset := 8;
    while offset < |payload|
      invariant 8 <= offset <= |payload| && SentSoFar(frames, src, payload, offset)
    {
      var remaining := |payload| - offset;
      var last := remaining <= 8;
      var chunk := if last then remaining else 8;
      var f := Frame(if last then Final else Middle, src, payload[offset..offset + chunk]);
      SendNext(frames, src, payload, offset, f);
      frames := frames + [f];
      offset := offset + chunk;
    }
    AllSent(frames, src, payload);
  }

  /** The frames carry the first `offset` bytes, and are all there once those are all bytes. */
  ghost predicate SentSoFar(frames: seq<Frame>, src: u16, payload: seq<u8>, offset: nat)
    requires offset <= |payload|
  {
    && FramesFit(frames) && (forall i :: 0 <= i < |frames| ==> frames[i].src == src)
    && DataOf(frames, src) == payload[..offset]
    && if offset < |payload| then Started(frames) else Fragments(frames)
  }

  lemma SendFirst(src: u16, payload: seq<u8>)
    requires 8 < |payload|
    ensures SentSoFar([Frame(First, src, payload[..8])], src, payload, 8)
  {
    hide DataOf;
    SingleFrame(Frame(First, src, payload[..8]));
  }

  lemma SendNext(frames: seq<Frame>, src: u16, payload: seq<u8>, offset: nat, f: Frame)
    requires offset < |payload| && SentSoFar(frames, src, payload, offset)
    requires f.src == src && 0 < |f.data| <= 8 && offset + |f.data| <= |payload|
    requires f.data == payload[offset..offset + |f.data|]
    requires f.kind == if offset + |f.data| == |payload| then Final else Middle
    ensures SentSoFar(frames + [f], src, payload, offset + |f.data|)
  {
    hide DataOf, Started, Fragments;
    AddFrame(frames, f);
    AddKind(frames, f);
    assert payload[..offset + |f.data|] == payload[..offset] + f.data;
  }

  lemma AllSent(frames: seq<Frame>, src: u16, payload: seq<u8>)
    requires SentSoFar(frames, src, payload, |payload|)
    ensures FramesFit(frames) && (forall i :: 0 <= i < |frames| ==> frames[i].src == src)
    ensures DataOf(frames, src) == payload && Fragments(frames)
  {
    hide DataOf, Fragments;
    assert payload[..|payload|] == payload;
  }

  /** A FIRST and then only MIDDLEs. */
  ghost predicate Started(frames: seq<Frame>) {
    frames != [] && frames[0].kind == First && forall i :: 0 < i < |frames| ==> frames[i].kind == Middle
  }

  ghost predicate Fragments(frames: seq<Frame>) {
    |frames| >= 2 && Started(frames[..|frames| - 1]) && frames[|frames| - 1].kind == Final
  }

  lemma NoFrames(src: u16)
    ensures DataOf([], src) == []
  {
  }

  lemma AddKind(frames: seq<Frame>, f: Frame)
    requires Started(frames)
    ensures f.kind == Middle ==> Started(frames + [f])
    ensures f.kind == Final ==> Fragments(frames + [f])
  {
    assert (frames + [f])[..|frames|] == frames;
  }

  lemma SingleFrame(f: Frame)
    ensures DataOf([f], f.src) == f.data
  {
    assert [f][..0] == [];
  }

  lemma AddFrame(frames: seq<Frame>, f: Frame)
    ensures DataOf(frames + [f], f.src) == DataOf(frames, f.src) + f.data
    ensures (frames + [f])[..|frames|] == frames
  {
    assert (frames + [f])[..|frames|] == frames;
  }

  /** One sender's frames among all those that arrive. */
  function From(frames: seq<Frame>, src: u16): seq<Frame> {
    if frames == [] then []
    else
      var f := frames[|frames| - 1];
      From(frames[..|frames| - 1], src) + if f.src == src then [f] else []
  }

  lemma {:induction false} FromPrefix(frames: seq<Frame>, src: u16, i: nat)
    requires i <= |frames|
    ensures From(frames[..i], src) <= From(frames, src)
    decreases |frames|
  {
    if i == |frames| {
      assert frames[..i] == frames;
    } else {
      var before := frames[..|frames| - 1];
      assert before[..i] == frames[..i];
      FromPrefix(before, src, i);
    }
  }

  lemma {:induction false} DataFrom(frames: seq<Frame>, src: u16)
    ensures DataOf(From(frames, src), src) == DataOf(frames, src)
    decreases |frames|
  {
    if frames != [] {
      var before, f := frames[..|frames| - 1], frames[|frames| - 1];
      DataFrom(before, src);
      if f.src == src {
        AddFrame(From(before, src), f);
      } else {
        assert From(frames, src) == From(before, src);
      }
    }
  }

  /** `traffic` carries the fragments `sent` of one sender, from its FIRST to its FINAL, between MIDDLE and
      FINAL frames of others. */
  ghost predicate Interleaved(traffic: seq<Frame>, sent: seq<Frame>, src: u16) {
    && FramesFit(traffic) && Fragments(sent) && From(traffic, src) == sent
    && |traffic| >= 2 && traffic[0] == sent[0] && traffic[0].src == src
    && traffic[|traffic| - 1].src == src
    && forall i :: 0 <= i < |traffic| && traffic[i].src != src ==> traffic[i].kind == Middle || traffic[i].kind == Final
  }

  /** Strictly inside the traffic there is no FIRST, no ONE and no FINAL of the sender's own. */
  lemma InsideTraffic(traffic: seq<Frame>, sent: seq<Frame>, src: u16, i: nat)
    requires Interleaved(traffic, sent, src) && 0 < i < |traffic| - 1
    ensures traffic[i].src == src ==> traffic[i].kind == Middle
  {
    var n := |traffic| - 1;
    if traffic[i].src == src {
      var upTo := traffic[..i + 1];
      assert upTo[..i] == traffic[..i] && traffic[..i][..1] == [traffic[0]];
      var m := |From(traffic[..i], src)|;
      FromPrefix(traffic[..i], src, 1);
      assert From([traffic[0]], src) == [traffic[0]] by { assert [traffic[0]][..0] == []; }
      assert From(upTo, src)[m] == traffic[i];
      assert traffic[..n][..i + 1] == upTo;
      FromPrefix(traffic[..n], src, i + 1);
      assert 1 <= m < |sent| - 1 && sent[m] == traffic[i];
      assert sent[..|sent| - 1][m].kind == Middle;
    }
  }

  lemma LastOfTraffic(traffic: seq<Frame>, sent: seq<Frame>, src: u16)
    requires Interleaved(traffic, sent, src)
    ensures traffic[|traffic| - 1].kind == Final
  {
    assert traffic[|traffic| - 1] == sent[|sent| - 1];
  }

  /** Whatever came before, a datagram sent in fragments is delivered whole by its FINAL exactly when it is
      short enough, other senders' MIDDLE and FINAL frames in between notwithstanding. */
  lemma FragmentsArrive(history: seq<Frame>, traffic: seq<Frame>, sent: seq<Frame>, src: u16, payload: seq<u8>)
    requires FramesFit(history) && Interleaved(traffic, sent, src) && DataOf(sent, src) == payload
    ensures LastOutcome(history + traffic).Deliver? <==> |payload| <= DATAGRAM_MAX
    ensures |payload| <= DATAGRAM_MAX ==> LastOutcome(history + traffic) == Deliver(payload)
  {
    hide DataOf, From, After;
    var frames, h := history + traffic, |history|;
    var n := |frames| - 1;
    LastOfTraffic(traffic, sent, src);
    assert frames[n] == traffic[|traffic| - 1] && frames[h..] == traffic;
    DataFrom(traffic, src);
    OpenTraffic(history, traffic, sent, src);
    Reassembly(frames);
    if |payload| <= DATAGRAM_MAX {
      assert Whole(frames, h);
    } else {
      forall j: nat
        ensures !Whole(frames, j)
      {
        if Open(frames[..n], j, src) {
          OnlyOpening(frames[..n], h, j, src);
        }
      }
    }
  }

  lemma OpenTraffic(history: seq<Frame>, traffic: seq<Frame>, sent: seq<Frame>, src: u16)
    requires Interleaved(traffic, sent, src)
    ensures var frames := history + traffic; Open(frames[..|frames| - 1], |history|, src)
  {
    var frames, h := history + traffic, |history|;
    var before := frames[..|frames| - 1];
    assert before[h] == traffic[0];
    forall i | h < i < |before|
      ensures before[i].kind != First && before[i].kind != One && !(before[i].kind == Final && before[i].src == src)
    {
      assert before[i] == traffic[i - h];
      InsideTraffic(traffic, sent, src, i - h);
    }
  }

  /** A sender has at most one open datagram. */
  lemma OnlyOpening(frames: seq<Frame>, j: nat, k: nat, src: u16)
    requires Open(frames, j, src) && Open(frames, k, src)
    ensures j == k
  {
  }

  /** Meanwhile nothing else is delivered. */
  lemma NothingElseArrives(history: seq<Frame>, traffic: seq<Frame>, sent: seq<Frame>, src: u16, i: nat)
    requires FramesFit(history) && Interleaved(traffic, sent, src) && i < |traffic| - 1
    ensures !LastOutcome(history + traffic[..i + 1]).Deliver?
  {
    hide DataOf, From, After;
    var frames, h := history + traffic[..i + 1], |history|;
    var f := traffic[i];
    assert frames[|frames| - 1] == f;
    if f.kind == Final {
      assert i > 0;
      InsideTraffic(traffic, sent, src, i);
      Reassembly(frames);
      var before := frames[..|frames| - 1];
      assert before[h] == traffic[0];
      forall m | h < m < h + i
        ensures before[m].kind != First
      {
        InsideTraffic(traffic, sent, src, m - h);
        assert before[m] == traffic[m - h];
      }
      forall j: nat
        ensures !Whole(frames, j)
      {
      }
    } else {
      if i > 0 {
        InsideTraffic(traffic, sent, src, i);
      }
      OtherFrames(frames);
    }
  }
}
