/** Which streams of packets the podule's reassembly fails on with the excess subtraction as written:
    the fault is reached from power-up by any two packets of which the first is shorter than the
    buffer, and every fault needs such a packet. */
module RxFaults {
  import opened Bits
  import opened PoduleRegs
  import opened Framing
  import opened Shuffle
  import opened RxPipe
  import opened RxPoll
  import opened Sequences
  import RxProgress

  // ---- Reaching the fault

  /** Two packets in the link, at a podule at rest. */
  lemma BothSent(s: Rx, p: Packet, q: Packet)
    requires Shape(s) && s.owed == [] && s.fifo == [] && s.given == [] && Legal(p) && Legal(q)
    ensures var w := RxProgress.WHOLE;
      Run(s, [Send(p), Write(w), Send(q), Write(w)]) == s.(fifo := Frame(p) + Frame(q), given := [p, q])
  {
    var w := RxProgress.WHOLE;
    var t := s.(fifo := Frame(p), given := [p]);
    hide Frame, Shape, Legal, SendStep, WriteStep;
    SentOne(s, p);
    assert [] + Frame(p) == Frame(p) && [] + [p] == [p] && [p] + [q] == [p, q];
    SentOne(t, q);
    SendWrite(s, p, [Send(q), Write(w)]);
    SendWrite(t, q, []);
    assert [Send(p), Write(w), Send(q), Write(w)] == [Send(p), Write(w)] + [Send(q), Write(w)];
    assert [Send(q), Write(w)] == [Send(q), Write(w)] + [];
  }

  lemma SentOne(s: Rx, p: Packet)
    requires Shape(s) && Legal(p) && s.owed == []
    ensures WriteStep(SendStep(s, p), RxProgress.WHOLE) == s.(fifo := s.fifo + Frame(p), given := s.given + [p])
  {
    assert Frame(p)[..|Frame(p)|] == Frame(p);
    hide Shape;
  }

  lemma SendWrite(s: Rx, p: Packet, rest: seq<Action>)
    requires Shape(s)
    ensures Run(s, [Send(p), Write(RxProgress.WHOLE)] + rest)
      == Run(WriteStep(SendStep(s, p), RxProgress.WHOLE), rest)
  {
    hide SendStep, WriteStep, Shape;
    var acts := [Send(p), Write(RxProgress.WHOLE)] + rest;
    assert acts[1..] == [Write(RxProgress.WHOLE)] + rest && acts[1..][1..] == rest;
    assert Run(s, acts) == Run(Step(s, acts[0]), acts[1..]);
  }

  lemma BothRead(r: Rx, p: Packet, q: Packet)
    requires Inv(r) && r.form.AsWritten? && r.pod.Resting? && !r.pending && r.rxPos == 0 && !InFlight(r)
    requires r.fifo == Frame(p) + Frame(q) && Legal(p) && Legal(q) && |p.payload| < BUFFER_SIZE
    ensures PollRx(r, RxProgress.WHOLE).pod.Faulted?
  {
    var w := RxProgress.WHOLE;
    assert Shape(r) && |r.rxBuf| == w;
    PollFaultExact(r, w);
    var t := Poll(r, w);
    FrameNonEmpty(q);
    assert |Frame(p)| == HEADER + |p.payload|;
    var m := Min(w, |r.fifo|);
    hide Inv, Frame, FrameLen, PollRx, Shape;
    assert t.rxPos == m > |Frame(p)| && t.pod.Checking? && !InFlight(t);
    FrontOf(p, Frame(q), m, t.rxBuf, r.rxBuf);
  }

  lemma FrontOf(p: Packet, rest: seq<Byte>, m: nat, buf: seq<Byte>, was: seq<Byte>)
    requires Legal(p) && HEADER + |p.payload| <= m <= |Frame(p)| + |rest| && m <= |was|
    requires buf == was[..0] + (Frame(p) + rest)[..m] + was[0 + m..]
    ensures |buf| >= HEADER && FrameLen(buf) == |Frame(p)|
  {
    var n := |Frame(p)|;
    assert n == HEADER + |p.payload|;
    FrameHeader(p, buf[n..]);
    hide Frame, FrameLen;
    assert buf == Frame(p) + buf[n..];
  }

  /** From power-up, with the subtraction as written: any packet shorter than the buffer, followed by any
      other before the podule has read, is fatal. */
  lemma TwoPacketsFault(s: Rx, p: Packet, q: Packet) returns (k: nat)
    requires Initial(s) && s.form.AsWritten? && Legal(p) && Legal(q) && |p.payload| < BUFFER_SIZE
    ensures var w := RxProgress.WHOLE;
      Run(s, [Send(p), Write(w), Send(q), Write(w)] + Repeat(Pod(w), k)).pod.Faulted?
  {
    var w := RxProgress.WHOLE;
    var sent := [Send(p), Write(w), Send(q), Write(w)];
    BothSent(s, p, q);
    InitialInv(s);
    RunInv(s, sent);
    var r := Run(s, sent);
    BothRead(r, p, q);
    assert Shape(s) && Shape(r);
    hide Run, Inv, Initial, PollRx, Shape, Frame;
    k := PollIsRun(r, w);
    RxProgress.PodRun(r, w, k);
    RunAppend(s, sent, Repeat(Pod(w), k));
  }

  // ---- What every fault needs

  /** While a frame is being given up, it is the one accepted last. */
  predicate FrontAccepted(s: Rx)
    requires Shape(s)
  {
    s.pod.Advancing? || s.pod.Finishing? ==>
      |s.accepted| > 0 && FrontLen(s) == HEADER + |s.accepted[|s.accepted| - 1].payload|
  }

  /** The packet accepted last leaves room behind it, and another has been given. */
  predicate ShortThenMore(s: Rx) {
    0 < |s.accepted| < |s.given| && |s.accepted[|s.accepted| - 1].payload| < BUFFER_SIZE
  }

  lemma FinishNeeds(s: Rx)
    requires Inv(s) && FrontAccepted(s) && s.pod.Finishing? && Finish(s).pod.Faulted?
    ensures ShortThenMore(s)
  {
    FaultExact(s);
    NoFrames();
    hide Frames, FrameLen, Finish, Counters, Flight, PodProgress;
    assert Held(s) != [];
  }

  lemma PodNeeds(s: Rx, n: nat)
    requires Inv(s) && FrontAccepted(s) && (s.pod.Faulted? ==> ShortThenMore(s))
    ensures var r := PodStep(s, n);
      FrontAccepted(r) && (r.pod.Faulted? ==> ShortThenMore(r))
  {
    if s.pod.Finishing? {
      FinishGivesUp(s);
      if Finish(s).pod.Faulted? { FinishNeeds(s); }
      hide Inv, Finish, FrontAccepted, ShortThenMore, Shape;
    } else {
      if s.pod.Checking? { CheckSized(s); }
      assert Shape(s) by { hide Order, Conserved, Counters, Flight, PodProgress; }
      hide Inv, PodStep, FrontAccepted, ShortThenMore, Shape;
      OtherNeeds(s, n);
    }
  }

  lemma FinishGivesUp(s: Rx)
    requires Shape(s) && s.pod.Finishing?
    ensures var r := Finish(s);
      FrontAccepted(r) && r.accepted == s.accepted && r.given == s.given
  {
    hide FrameLen, MoveExcess;
  }

  lemma CheckSized(s: Rx)
    requires Inv(s) && s.pod.Checking?
    ensures !Check(s).pod.Finishing?
  {
    Capacity(s);
    hide Inv, FrameLen, LoadWord, IsReady;
  }

  lemma OtherNeeds(s: Rx, n: nat)
    requires Shape(s) && FrontAccepted(s) && (s.pod.Faulted? ==> ShortThenMore(s))
    requires !s.pod.Finishing? && (s.pod.Checking? ==> !Check(s).pod.Finishing?)
    ensures var r := PodStep(s, n);
      FrontAccepted(r) && (r.pod.Faulted? ==> ShortThenMore(r))
  {
    hide FrameLen, StoreWord, LoadWord, IsReady, PublishedWord, NextSlot;
  }

  lemma ArcNeeds(s: Rx)
    requires Shape(s) && FrontAccepted(s)
    ensures FrontAccepted(ArcStep(s)) && (ShortThenMore(s) ==> ShortThenMore(ArcStep(s)))
  {
    hide ArcStep, FrameLen;
  }

  lemma StepNeeds(s: Rx, a: Action)
    requires Inv(s) && FrontAccepted(s) && (s.pod.Faulted? ==> ShortThenMore(s))
    ensures var r := Step(s, a);
      FrontAccepted(r) && (r.pod.Faulted? ==> ShortThenMore(r))
  {
    match a
    case Pod(n) => PodNeeds(s, n); hide Inv, PodStep, FrameLen;
    case Arc => ArcNeeds(s); hide Inv, ArcStep, FrameLen;
    case _ => hide Inv, FrameLen, Frame;
  }

  lemma {:induction false} RunNeeds(s: Rx, acts: seq<Action>)
    requires Inv(s) && FrontAccepted(s) && (s.pod.Faulted? ==> ShortThenMore(s))
    ensures Run(s, acts).pod.Faulted? ==> ShortThenMore(Run(s, acts))
    decreases |acts|
  {
    hide Step, FrontAccepted, ShortThenMore;
    if |acts| > 0 {
      StepNeeds(s, acts[0]);
      StepInv(s, acts[0]);
      hide Inv;
      RunNeeds(Step(s, acts[0]), acts[1..]);
    }
  }

  /** Every fault is of such a stream: the frame given up is of a packet shorter than the buffer, and
      the server has given another after it. So a stream of full blocks never fails, whatever the
      subtraction. */
  lemma FaultNeedsShortPacket(s: Rx, acts: seq<Action>)
    requires Initial(s)
    ensures var r := Run(s, acts);
      r.pod.Faulted? ==>
        && 0 < |r.accepted| < |r.given| && r.accepted <= r.given
        && |r.given[|r.accepted| - 1].payload| < BUFFER_SIZE
  {
    InitialInv(s);
    RunNeeds(s, acts);
    RunInv(s, acts);
    hide Run, Conserved, Counters, Flight, PodProgress;
  }
}
