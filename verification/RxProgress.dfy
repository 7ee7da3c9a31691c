/** The receive direction gets there: a packet given to send_packet can always be carried through to
    the return of pipe_packet_rx. */
module RxProgress {
  import opened Bits
  import opened PoduleRegs
  import opened Framing
  import opened Shuffle
  import opened RxPipe
  import opened RxPoll
  import opened Sequences
  import ArcPipe
  import Podule

  /** Room for a whole frame. */
  const WHOLE: nat := BUFFER_SIZE + HEADER

  /** Steps of the two parties and of the link. */
  predicate Inside(acts: seq<Action>) { forall i :: 0 <= i < |acts| ==> acts[i].Arc? || acts[i].Pod? || acts[i].Write? }

  lemma {:induction false} PodRun(s: Rx, n: nat, k: nat)
    requires Shape(s)
    ensures Run(s, Repeat(Pod(n), k)) == PodSteps(s, n, k)
    decreases k
  {
    hide PodStep, Shape;
    if k > 0 {
      assert Repeat(Pod(n), k)[1..] == Repeat(Pod(n), k - 1);
      PodRun(PodStep(s, n), n, k - 1);
    }
  }

  function ArcSteps(s: Rx, k: nat): (r: Rx)
    requires Shape(s)
    ensures Shape(r)
    decreases k
  {
    if k == 0 then s else ArcSteps(ArcStep(s), k - 1)
  }

  lemma {:induction false} ArcRun(s: Rx, k: nat)
    requires Shape(s)
    ensures Run(s, Repeat(Arc, k)) == ArcSteps(s, k)
    decreases k
  {
    hide ArcStep, Shape;
    if k > 0 {
      assert Repeat(Arc, k)[1..] == Repeat(Arc, k - 1);
      ArcRun(ArcStep(s), k - 1);
    }
  }

  // ---- The Archimedes' part

  /** A bound on the accesses left before pipe_packet_rx returns. */
  function Left(arc: ArcRx): nat {
    match arc
    case Idle => 0
    case Polling => BUFFER_SIZE + 6
    case Getting(r6, r4, k) => if k < 3 then BUFFER_SIZE + 5 - k else 0
    case Fetching(len, cid, offset, data) => if |data| < len <= BUFFER_SIZE then len - |data| + 1 else 0
    case Consuming(cid, data) => 1
  }

  /** With a packet in flight the poll succeeds. */
  lemma FlightReady(s: Rx)
    requires Inv(s) && InFlight(s)
    ensures TopBitSet(s.descrs[s.tail].b3)
  {
    assert s.tail == s.last by { hide OnlyLastReady, Delivered, ArcHolds, Conserved, PodProgress, Slot; }
    LastReadyIffFlight(s);
    ReadyByte(s.descrs[s.last]);
    hide Inv, IsReady, TopBitSet, LoadWord;
  }

  lemma LeftShrinks(s: Rx)
    requires Inv(s) && InFlight(s) && !s.arc.Idle?
    ensures var r := ArcStep(s);
      && Left(r.arc) < Left(s.arc)
      && r.received == s.received + (if s.arc.Consuming? then [Packet(s.arc.cid % 0x100, s.arc.data)] else [])
      && (r.arc.Idle? <==> s.arc.Consuming?)
  {
    match s.arc
    case Polling => AwaitStep(s);
    case Getting(r6, r4, k) => GetStep(s);
    case Fetching(len, cid, offset, data) => FetchStep(s);
    case Consuming(cid, data) => ArcPipe.ConsumeStep(s); hide ArcStep;
  }

  lemma AwaitStep(s: Rx)
    requires Inv(s) && InFlight(s) && s.arc.Polling?
    ensures Left(ArcStep(s).arc) < Left(s.arc) && ArcStep(s).received == s.received && !ArcStep(s).arc.Idle?
  {
    FlightReady(s);
    ArcPipe.AwaitStep(s);
    hide Inv, ArcStep, TopBitSet;
  }

  lemma GetStep(s: Rx)
    requires Inv(s) && InFlight(s) && s.arc.Getting?
    ensures Left(ArcStep(s).arc) < Left(s.arc) && ArcStep(s).received == s.received && !ArcStep(s).arc.Idle?
  {
    ArcPipe.GetStep(s);
    ArcInv(s);
    if ArcStep(s).arc.Fetching? { ArcPipe.FetchBound(ArcStep(s)); }
    assert s.arc.k < 3;
    hide Inv, ArcStep, Or, Lsl, ArcLen, ArcCid, ArcOffset, Get;
  }

  lemma FetchStep(s: Rx)
    requires Inv(s) && InFlight(s) && s.arc.Fetching?
    ensures Left(ArcStep(s).arc) < Left(s.arc) && ArcStep(s).received == s.received && !ArcStep(s).arc.Idle?
  {
    ArcPipe.FetchStep(s);
    ArcPipe.FetchBound(s);
    hide Inv, ArcStep, BusByte;
  }

  lemma {:induction false} ArcFinishes(s: Rx) returns (k: nat)
    requires Inv(s) && InFlight(s) && !s.arc.Idle?
    ensures var r := ArcSteps(s, k);
      && Inv(r) && ArcOnly(s, r) && r.arc.Idle? && |r.received| == |s.received| + 1
    decreases Left(s.arc)
  {
    LeftShrinks(s);
    ArcInv(s);
    var r := ArcStep(s);
    assert ArcOnly(s, r) && ArcSteps(s, 1) == ArcSteps(r, 0) == r;
    hide Inv, ArcStep, Left;
    if r.arc.Idle? {
      k := 1;
    } else {
      k := ArcFinishes(r);
      assert ArcSteps(s, k + 1) == ArcSteps(r, k);
      k := k + 1;
      hide ArcSteps;
    }
  }

  // ---- The podule's part

  /** Nothing held or in the link, nothing in flight, and one packet owed by the server. */
  predicate Owing(s: Rx) {
    Inv(s) && s.pod.Resting? && s.received == s.accepted && |s.given| == |s.received| + 1
    && s.rxPos == 0 && s.fifo == [] && s.arc.Polling?
  }

  lemma OwedFrame(s: Rx)
    requires Owing(s)
    ensures s.received < s.given && Legal(s.given[|s.received|])
    ensures s.owed == Frame(s.given[|s.received|]) && !s.pending
  {
    var gs := s.given[|s.accepted|..];
    assert gs == [s.given[|s.received|]] && gs[1..] == [];
    assert s.given[|s.received|] in s.given;
    NoFrames();
    assert Frames(gs) == Frame(gs[0]) + Frames(gs[1..]);
    assert Frame(gs[0]) + [] == Frame(gs[0]) && Held(s) + (s.fifo + s.owed) == s.owed;
    hide Frames, Frame, Counters, Flight;
  }

  /** The link brings one whole frame. */
  predicate Brought(s: Rx, p: Packet) {
    && Inv(s) && s.pod.Resting? && !s.pending && s.rxPos == 0 && s.fifo == Frame(p) && Legal(p)
    && s.received == s.accepted && s.given == s.received + [p] && s.arc.Polling?
  }

  lemma WholeFrame(buf: seq<Byte>, p: Packet)
    requires Legal(p) && |buf| == WHOLE
    ensures var f := Frame(p);
      |f| <= WHOLE && FrameLen(buf[..0] + f + buf[|f|..]) == |f|
  {
    var f := Frame(p);
    assert |f| == HEADER + |p.payload|;
    FrameHeader(p, buf[|f|..]);
    hide Frame, FrameLen;
    assert buf[..0] + f == f;
  }

  lemma ReadWhole(s: Rx, p: Packet)
    requires Brought(s, p)
    ensures var t := Podule.ReadIn(s, WHOLE);
      && t.rxPos == FrameLen(t.rxBuf) == |Frame(p)| <= WHOLE && t.descrs == s.descrs && t.last == s.last
      && t == s.(rxBuf := t.rxBuf, rxPos := t.rxPos, fifo := [])
  {
    assert |s.rxBuf| == WHOLE && s.rxPos == 0 && s.fifo == Frame(p) && Legal(p) && !s.pending by {
      hide Conserved, Counters, Flight, PodProgress, Order, FrameLen, Frame;
    }
    WholeFrame(s.rxBuf, p);
    hide Frame, FrameLen, Inv, Brought, Legal;
    assert s.fifo[..|s.fifo|] == s.fifo && s.fifo[|s.fifo|..] == [];
  }

  lemma PodTakes(s: Rx, p: Packet)
    requires Brought(s, p)
    ensures var r := PollRx(s, WHOLE);
      && r.pod.Resting? && InFlight(r) && r.received == s.received && r.arc == s.arc && r.given == s.given
  {
    assert s.fifo != [] by { FrameNonEmpty(p); hide Inv, Frame; }
    Podule.PollIs(s, WHOLE);
    ReadWhole(s, p);
    LastReadyIffFlight(s);
    var t := Podule.ReadIn(s, WHOLE);
    assert t == s.(rxBuf := t.rxBuf, rxPos := t.rxPos, fifo := []);
    hide Inv, PollRx, Podule.ReadIn, Frame, FrameLen, StoreWord, PublishedWord, NextSlot, IsReady, LoadWord, MoveExcess;
  }

  /** Everything given has been received, and nothing is on its way. */
  predicate Quiet(s: Rx) {
    && Inv(s) && s.arc.Idle? && s.pod.Resting? && s.received == s.accepted == s.given
    && s.rxPos == 0 && s.fifo == [] && s.owed == []
  }

  /** The podule takes the frame from the link in one poll. */
  lemma Delivers(t: Rx, p: Packet) returns (acts: seq<Action>)
    requires Brought(t, p)
    ensures Inside(acts)
    ensures var u := Run(t, acts);
      Inv(u) && InFlight(u) && u.pod.Resting? && u.received == t.received && u.given == t.given && u.arc.Polling?
  {
    assert t.arc.Polling? && t.pod.Resting? && Inv(t);
    PodTakes(t, p);
    var j := PollIsRun(t, WHOLE);
    acts := Repeat(Pod(WHOLE), j);
    hide Inv, Run, PollRx, Brought;
    PodRun(t, WHOLE, j);
    RunInv(t, acts);
  }

  lemma Returns(u: Rx) returns (acts: seq<Action>)
    requires Inv(u) && InFlight(u) && |u.given| == |u.received| + 1 && u.pod.Resting? && !u.arc.Idle?
    ensures Inside(acts)
    ensures Quiet(Run(u, acts)) && Run(u, acts).given == u.given
  {
    var k := ArcFinishes(u);
    acts := Repeat(Arc, k);
    hide Inv, Run;
    ArcRun(u, k);
    AllArrived(u, Run(u, acts));
  }

  /** Once the server has given a packet and the Archimedes waits, the packet can be carried through
      by steps of the link and of the two parties alone. */
  lemma PacketArrives(s: Rx) returns (acts: seq<Action>)
    requires Owing(s)
    ensures Inside(acts)
    ensures Quiet(Run(s, acts)) && Run(s, acts).given == s.given
  {
    OwedFrame(s);
    var p := s.given[|s.received|];
    var t := WriteStep(s, WHOLE);
    Written(s, p);
    assert |t.given| == |t.received| + 1 && Shape(s) && Shape(t);
    hide Inv, WriteStep, Run, Brought, Quiet, Owing;
    var poll := Delivers(t, p);
    var copy := Returns(Run(t, poll));
    RunAppend(t, poll, copy);
    WriteThen(s, poll + copy);
    acts := [Write(WHOLE)] + (poll + copy);
  }

  lemma Written(s: Rx, p: Packet)
    requires Owing(s) && s.owed == Frame(p) && !s.pending && Legal(p) && s.given[|s.received|] == p
      && s.received < s.given
    ensures Brought(WriteStep(s, WHOLE), p) && WriteStep(s, WHOLE).given == s.given
  {
    WriteInv(s, WHOLE);
    assert |Frame(p)| <= WHOLE;
    hide Inv, Frame, Shape;
    assert s.owed[..|s.owed|] == s.owed && [] + s.owed == s.owed;
    assert s.given == s.received + [p];
  }

  lemma WriteThen(s: Rx, rest: seq<Action>)
    requires Shape(s)
    ensures Run(s, [Write(WHOLE)] + rest) == Run(WriteStep(s, WHOLE), rest)
  {
    hide WriteStep, Shape;
    assert ([Write(WHOLE)] + rest)[1..] == rest;
  }

  lemma AllArrived(u: Rx, r: Rx)
    requires Inv(u) && InFlight(u) && |u.given| == |u.received| + 1 && u.pod.Resting?
    requires Inv(r) && ArcOnly(u, r) && |r.received| == |u.received| + 1 && r.arc.Idle?
    ensures r.received == r.accepted == r.given && r.rxPos == 0 && r.fifo == [] && r.owed == []
  {
    assert r.given[|r.accepted|..] == [];
    NoFrames();
    hide Frames, Counters, Flight, PodProgress;
  }

  /** No packet is ever stuck: with nothing on its way, every packet the pipe can carry has a run from
      send_packet to the return of pipe_packet_rx, which returns it. */
  lemma PacketCompletes(s: Rx, p: Packet) returns (acts: seq<Action>)
    requires Quiet(s) && Legal(p)
    ensures Quiet(Run(s, acts)) && Run(s, acts).received == s.received + [p]
  {
    var t := SendStep(s, p).(arc := Polling);
    Enters(s, p);
    assert t.given == s.received + [p] && Shape(s) && Shape(t);
    hide Quiet, Owing, Run, SendStep, Inv, Shape;
    var rest := PacketArrives(t);
    TwoFirst(s, p, rest);
    QuietReceived(Run(t, rest));
    acts := [Send(p), Receive] + rest;
  }

  lemma QuietReceived(s: Rx)
    requires Quiet(s)
    ensures s.received == s.given
  {}

  lemma Enters(s: Rx, p: Packet)
    requires Quiet(s) && Legal(p)
    ensures Owing(SendStep(s, p).(arc := Polling)) && SendStep(s, p).given == s.given + [p]
  {
    SendInv(s, p);
    StepInv(SendStep(s, p), Receive);
    assert Step(SendStep(s, p), Receive) == SendStep(s, p).(arc := Polling);
    hide Inv, Frame;
  }

  lemma TwoFirst(s: Rx, p: Packet, rest: seq<Action>)
    requires Shape(s) && s.arc.Idle? && Shape(SendStep(s, p).(arc := Polling))
    ensures Run(s, [Send(p), Receive] + rest) == Run(SendStep(s, p).(arc := Polling), rest)
  {
    hide Frame, Shape;
    var acts := [Send(p), Receive] + rest;
    assert acts[1..] == [Receive] + rest && acts[1..][1..] == rest;
    assert Step(s, acts[0]) == SendStep(s, p);
    assert Step(SendStep(s, p), Receive) == SendStep(s, p).(arc := Polling);
    assert Run(s, acts) == Run(SendStep(s, p), acts[1..]);
    assert Run(SendStep(s, p), acts[1..]) == Run(SendStep(s, p).(arc := Polling), rest);
  }
}
