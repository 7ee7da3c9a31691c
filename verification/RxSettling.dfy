/** The receive direction cannot get stuck either: with at most one packet under way, from every state of
    every run the parties can carry it through and come to rest. */
module RxSettling {
  import opened Bits
  import opened PoduleRegs
  import opened Framing
  import opened Shuffle
  import opened RxPipe
  import opened RxPoll
  import opened RxProgress
  import opened Sequences

  /** Any state of a run with at most one packet given and not received. */
  predicate Live(s: Rx) { Inv(s) && Solo(s) }

  lemma ShapeOf(s: Rx)
    requires Live(s)
    ensures Shape(s)
  {}

  lemma StepLive(s: Rx, a: Action)
    requires Live(s) && !a.Send?
    ensures Live(Step(s, a))
  {
    StepInv(s, a);
    SoloStep(s, a);
    hide Inv, Solo, Step;
  }

  lemma {:induction false} RunLive(s: Rx, acts: seq<Action>)
    requires Live(s) && Shape(s) && Inside(acts)
    ensures Live(Run(s, acts)) && Run(s, acts).given == s.given
    decreases |acts|
  {
    hide Live, Step, Shape;
    if |acts| > 0 {
      StepLive(s, acts[0]);
      KeepsGiven(s, acts[0]);
      RunLive(Step(s, acts[0]), acts[1..]);
    }
  }

  lemma KeepsGiven(s: Rx, a: Action)
    requires Shape(s)
    ensures !a.Send? ==> Step(s, a).given == s.given
    ensures a.Pod? ==> Step(s, a).received == s.received && Step(s, a).arc == s.arc && Step(s, a).owed == s.owed
  {
    hide ArcStep, FrameLen, LoadWord, IsReady, StoreWord, PublishedWord, NextSlot, MoveExcess;
  }

  // ---- The podule, nothing being under way

  /** Everything given has been received, and the Archimedes is idle. */
  predicate AllReceived(s: Rx) { Live(s) && s.arc.Idle? && s.received == s.given }

  lemma NothingHeld(s: Rx)
    requires AllReceived(s)
    ensures s.accepted == s.given && s.owed == [] && s.fifo == [] && Held(s) == []
    ensures s.pod.Resting? || s.pod.Checking? || s.pod.Advancing? || s.pod.Finishing?
    ensures s.pod.Resting? || s.pod.Checking? ==> s.rxPos == 0
  {
    assert s.accepted == s.given by { hide Conserved, Counters, Flight, PodProgress, Shape; }
    assert s.given[|s.accepted|..] == [];
    NoFrames();
    hide Frames, Counters, Flight, Delivered, FrameLen;
    if s.pod.Storing? || s.pod.Publishing? { HeldWhole(s); }
  }

  lemma HeldWhole(s: Rx)
    requires Shape(s) && (s.pod.Storing? || s.pod.Publishing?)
    ensures Held(s) != []
  {
    assert |Held(s)| == s.rxPos >= HEADER;
  }

  lemma RestsNext(s: Rx)
    requires AllReceived(s) && !s.pod.Resting? && !s.pod.Advancing?
    ensures PodStep(s, WHOLE).pod.Resting?
  {
    NothingHeld(s);
    if s.pod.Finishing? {
      assert s.rxPos == FrontLen(s);
      hide Inv, FrameLen, MoveExcess;
    } else {
      hide Inv, FrameLen, LoadWord, IsReady;
    }
  }

  lemma PodKeeps(s: Rx)
    requires AllReceived(s)
    ensures Shape(s) && AllReceived(PodStep(s, WHOLE)) && PodStep(s, WHOLE).given == s.given
  {
    ShapeOf(s);
    StepLive(s, Pod(WHOLE));
    KeepsGiven(s, Pod(WHOLE));
    hide Live, PodStep;
  }

  lemma RestQuiet(s: Rx)
    requires AllReceived(s) && s.pod.Resting?
    ensures Quiet(s)
  {
    NothingHeld(s);
    hide Inv;
  }

  lemma AdvancesNext(s: Rx)
    requires Shape(s) && s.pod.Advancing?
    ensures PodStep(s, WHOLE).pod.Finishing?
  {
    hide NextSlot;
  }

  /** With everything received the podule comes to rest in at most two steps. */
  lemma PodRests(s: Rx) returns (k: nat)
    requires AllReceived(s) && Shape(s)
    ensures k <= 2
    ensures var r := PodSteps(s, WHOLE, k);
      Quiet(r) && r.given == s.given
  {
    hide Live, PodStep, Shape, Quiet;
    var t := s;
    k := 0;
    assert PodSteps(s, WHOLE, 0) == s;
    if s.pod.Advancing? {
      PodKeeps(s);
      AdvancesNext(s);
      t := PodStep(s, WHOLE);
      k := 1;
      assert PodSteps(s, WHOLE, 1) == PodSteps(t, WHOLE, 0) == t;
    }
    if !t.pod.Resting? {
      PodKeeps(t);
      RestsNext(t);
      var u := PodStep(t, WHOLE);
      assert PodSteps(t, WHOLE, 1) == PodSteps(u, WHOLE, 0) == u;
      PodStepsAdd(s, WHOLE, k, 1);
      t := u;
      k := k + 1;
    }
    RestQuiet(t);
  }

  // ---- The podule, with a packet to bring

  /** One packet is on its way to the podule, or in it, all of it past the server. */
  predicate Coming(s: Rx) {
    Live(s) && s.owed == [] && |s.given| == |s.received| + 1 && !InFlight(s)
  }

  /** A bound on the podule's steps until the packet is in flight, when it reads all that the link has. */
  function Distance(s: Rx): nat
    requires Shape(s)
  {
    match s.pod
    case Resting => BUFFER_SIZE + 6
    case Checking => if FrontComplete(s) then BUFFER_SIZE + 5 else BUFFER_SIZE + 7
    case Storing(i) => if i <= BUFFER_SIZE then BUFFER_SIZE - i + 2 else 0
    case Publishing => 1
    case Advancing => BUFFER_SIZE + 9
    case Finishing => BUFFER_SIZE + 8
    case Faulted => 0
  }

  lemma ComingFrame(s: Rx)
    requires Coming(s)
    ensures |s.given| == |s.accepted| + 1 && Legal(s.given[|s.accepted|]) && !s.pod.Faulted?
    ensures Held(s) + s.fifo == Frame(s.given[|s.accepted|])
  {
    assert |s.given| == |s.accepted| + 1 && Legal(s.given[|s.accepted|]) by {
      hide Conserved, Counters, Flight, PodProgress, Shape, Solo;
    }
    var gs := s.given[|s.accepted|..];
    assert gs == [s.given[|s.accepted|]] && gs[1..] == [];
    NoFrames();
    assert Frames(gs) == Frame(gs[0]) + [];
    assert Held(s) + (s.fifo + []) == Held(s) + s.fifo;
    hide Frames, Frame, Counters, Flight, PodProgress, FrameLen;
  }

  /** A podule at rest that has not noted a whole frame has one to read. */
  lemma ReadsRest(s: Rx)
    requires Coming(s) && s.pod.Resting?
    ensures var t := Poll(s, WHOLE);
      t.pod.Checking? && FrontComplete(t)
  {
    ComingFrame(s);
    ShapeOf(s);
    var p := s.given[|s.accepted|];
    assert s.pending ==> FrontComplete(s) by { hide Conserved, Counters, Flight; }
    assert Held(s) == s.rxBuf[..s.rxPos] by { hide Inv, Solo; }
    assert FrontComplete(s) ==> s.pending by { hide Inv; }
    hide Live, FrameLen, Frame;
    if !s.pending { WholeRead(s, p); }
  }

  lemma WholeRead(s: Rx, p: Packet)
    requires Shape(s) && s.pod.Resting? && Legal(p) && s.rxBuf[..s.rxPos] + s.fifo == Frame(p)
    requires !FrontComplete(s) && !s.pending
    ensures var t := Poll(s, WHOLE);
      t.pod.Checking? && FrontComplete(t)
  {
    var f := Frame(p);
    assert |f| == HEADER + |p.payload| <= WHOLE;
    if s.fifo == [] {
      assert s.rxBuf[..s.rxPos] == f;
      Fronted(p, s.rxBuf, s.rxPos);
      assert false;
    }
    hide FrameLen, Frame, Shape;
    assert Min(Min(WHOLE, |s.fifo|), |s.rxBuf| - s.rxPos) == |s.fifo|;
    assert s.fifo[..|s.fifo|] == s.fifo;
    var t := Poll(s, WHOLE);
    assert t.rxBuf[..t.rxPos] == f;
    Fronted(p, t.rxBuf, t.rxPos);
  }

  lemma Fronted(p: Packet, buf: seq<Byte>, n: nat)
    requires Legal(p) && n <= |buf| && buf[..n] == Frame(p) && |buf| >= HEADER
    ensures n >= HEADER && FrameLen(buf) == n
  {
    assert |Frame(p)| == HEADER + |p.payload|;
    FrameHeader(p, buf[n..]);
    hide FrameLen, Frame;
    assert buf == buf[..n] + buf[n..];
  }

  lemma ChecksNearer(s: Rx)
    requires Coming(s) && s.pod.Checking?
    ensures Distance(Check(s)) < Distance(s)
  {
    ShapeOf(s);
    LastReadyIffFlight(s);
    Capacity(s);
    hide Live, FrameLen, LoadWord, IsReady;
  }

  lemma GivesUpNearer(s: Rx)
    requires Live(s) && s.pod.Finishing?
    ensures Finish(s).pod.Resting?
  {
    assert s.rxPos == FrontLen(s) && Shape(s) by { hide Inv; }
    hide Live, FrameLen, MoveExcess;
  }

  lemma StoresNearer(s: Rx)
    requires Coming(s) && s.pod.Storing?
    ensures Distance(PodStep(s, WHOLE)) < Distance(s)
  {
    ShapeOf(s);
    hide Live, FrameLen;
  }

  lemma PublishesNearer(s: Rx)
    requires Shape(s) && s.pod.Publishing? && |s.accepted| == |s.received|
    ensures InFlight(PodStep(s, WHOLE))
  {
    hide FrameLen, PublishedWord, StoreWord;
  }

  lemma PodNearer(s: Rx)
    requires Coming(s) && Shape(s)
    ensures InFlight(PodStep(s, WHOLE)) || Distance(PodStep(s, WHOLE)) < Distance(s)
  {
    ComingFrame(s);
    assert |s.accepted| == |s.received|;
    match s.pod
    case Resting => ReadsRest(s); hide Live, Poll, Shape, FrontComplete;
    case Checking => ChecksNearer(s); hide Live, Check, Shape, FrontComplete;
    case Storing(i) => StoresNearer(s);
    case Publishing => PublishesNearer(s);
    case Advancing => AdvancesNext(s); hide Live, PodStep, Shape;
    case Finishing => GivesUpNearer(s); hide Live, Finish, Shape;
  }

  lemma ComingKept(s: Rx)
    requires Coming(s) && Shape(s)
    ensures var r := PodStep(s, WHOLE);
      && Live(r) && r.given == s.given && r.received == s.received && r.arc == s.arc
      && (!InFlight(r) ==> Coming(r))
  {
    StepLive(s, Pod(WHOLE));
    KeepsGiven(s, Pod(WHOLE));
    hide Live, PodStep;
  }

  lemma {:induction false} PodBrings(s: Rx) returns (k: nat)
    requires Coming(s) && Shape(s)
    ensures var r := PodSteps(s, WHOLE, k);
      Live(r) && InFlight(r) && r.given == s.given && r.received == s.received && r.arc == s.arc
    decreases Distance(s)
  {
    PodNearer(s);
    ComingKept(s);
    var t := PodStep(s, WHOLE);
    hide Live, Distance, PodStep, Shape;
    if InFlight(t) {
      k := 1;
      assert PodSteps(s, WHOLE, 1) == PodSteps(t, WHOLE, 0) == t;
    } else {
      hide InFlight;
      k := PodBrings(t);
      assert PodSteps(s, WHOLE, k + 1) == PodSteps(t, WHOLE, k);
      k := k + 1;
      hide PodSteps;
    }
  }

  // ---- As runs

  lemma RestRuns(s: Rx) returns (acts: seq<Action>)
    requires AllReceived(s)
    ensures Inside(acts)
    ensures Quiet(Run(s, acts)) && Run(s, acts).given == s.given
  {
    ShapeOf(s);
    var k := PodRests(s);
    acts := Repeat(Pod(WHOLE), k);
    hide Live, Quiet, Run, PodSteps, Shape;
    PodRun(s, WHOLE, k);
  }

  /** Inside pipe_packet_rx, with a packet given. */
  predicate Owed(s: Rx) { Live(s) && !s.arc.Idle? && |s.given| == |s.received| + 1 }

  lemma Written(s: Rx)
    requires Live(s) && Shape(s)
    ensures var r := WriteStep(s, WHOLE);
      && Live(r) && r.given == s.given && r.received == s.received && r.arc == s.arc && r.accepted == s.accepted
      && (|s.given| == |s.received| + 1 && !InFlight(s) ==> r.owed == [])
  {
    StepLive(s, Write(WHOLE));
    if |s.given| == |s.received| + 1 && !InFlight(s) { OwedShort(s); }
    hide Live;
  }

  lemma OwedShort(s: Rx)
    requires Live(s) && |s.given| == |s.received| + 1 && !InFlight(s)
    ensures |s.owed| <= WHOLE
  {
    var gs := s.given[|s.accepted|..];
    assert |s.given| == |s.accepted| + 1 && Legal(s.given[|s.accepted|]) && !s.pod.Faulted? by {
      hide Conserved, Counters, Flight, PodProgress, Shape, FrameLen;
    }
    assert gs == [s.given[|s.accepted|]] && gs[1..] == [];
    NoFrames();
    assert |Frames(gs)| == HEADER + |gs[0].payload| + 0;
    hide Frames, Counters, Flight, PodProgress, FrameLen;
    assert |Held(s) + (s.fifo + s.owed)| <= WHOLE;
  }

  /** The packet is brought into flight. */
  lemma BringRuns(s: Rx) returns (acts: seq<Action>)
    requires Owed(s)
    ensures Inside(acts)
    ensures var r := Run(s, acts);
      Owed(r) && InFlight(r) && r.given == s.given && r.received == s.received
  {
    ShapeOf(s);
    if InFlight(s) {
      acts := [];
      assert Run(s, []) == s;
    } else {
      Written(s);
      var t := WriteStep(s, WHOLE);
      hide Live, Run, PodSteps, Shape, WriteStep;
      var k := PodBrings(t);
      PodRun(t, WHOLE, k);
      WriteThen(s, Repeat(Pod(WHOLE), k));
      acts := [Write(WHOLE)] + Repeat(Pod(WHOLE), k);
    }
  }

  lemma CopyRuns(s: Rx) returns (acts: seq<Action>)
    requires Owed(s) && InFlight(s)
    ensures Inside(acts)
    ensures AllReceived(Run(s, acts)) && Run(s, acts).given == s.given
  {
    ShapeOf(s);
    var k := ArcFinishes(s);
    acts := Repeat(Arc, k);
    ArcRun(s, k);
    RunLive(s, acts);
    hide Run, ArcSteps;
    LastReceived(Run(s, acts));
  }

  lemma LastReceived(r: Rx)
    requires Live(r) && |r.received| == |r.given|
    ensures r.received == r.given
  {
    hide Conserved, Counters, Flight, PodProgress, Shape, Solo;
  }

  lemma ReturnRuns(s: Rx) returns (acts: seq<Action>)
    requires Owed(s)
    ensures Inside(acts)
    ensures AllReceived(Run(s, acts)) && Run(s, acts).given == s.given
  {
    ShapeOf(s);
    hide Live, Run, Shape;
    var bring := BringRuns(s);
    var copy := CopyRuns(Run(s, bring));
    RunAppend(s, bring, copy);
    acts := bring + copy;
  }

  /** From every state of every run with at most one packet under way: if pipe_packet_rx has been called
      for it, steps of the link and of the two parties alone return it and bring everything to rest; if
      none is under way, they bring everything to rest. */
  lemma PacketCanArrive(s: Rx) returns (acts: seq<Action>)
    requires Owed(s) || AllReceived(s)
    ensures Inside(acts) && Shape(s)
    ensures Quiet(Run(s, acts)) && Run(s, acts).given == s.given
  {
    OwedShape(s);
    hide Live, Quiet, Run, Shape, Owed, AllReceived;
    if AllReceived(s) {
      acts := RestRuns(s);
    } else {
      var back := ReturnRuns(s);
      var rest := RestRuns(Run(s, back));
      RunAppend(s, back, rest);
      acts := back + rest;
    }
  }

  lemma OwedShape(s: Rx)
    requires Owed(s) || AllReceived(s)
    ensures Shape(s)
  {
    ShapeOf(s);
  }
}
