/** A link and a podule that keep going bring a packet that has been given into flight in time. */
module RxPrompt {
  import opened Bits
  import opened PoduleRegs
  import opened Framing
  import opened Shuffle
  import opened ArcWaits
  import opened RxPipe

  /** Enough rounds for any packet, whatever the podule was doing. */
  const ENOUGH: nat := 3 * (BUFFER_SIZE + HEADER) + BUFFER_SIZE + 11

  predicate Takes(a: Action) { a.Write? && a.n >= 1 }

  predicate Polls(a: Action) { a.Pod? && a.n >= 1 }

  /** The link takes a byte, and the podule makes a step in which it could read one; the server gives no
      other packet. */
  predicate Round(acts: seq<Action>) {
    && (forall i :: 0 <= i < |acts| ==> acts[i].Write? || acts[i].Pod?)
    && (exists i :: 0 <= i < |acts| && Takes(acts[i])) && (exists i :: 0 <= i < |acts| && Polls(acts[i]))
  }

  ghost predicate Prompt(others: nat -> seq<Action>) { forall n :: Round(others(n)) }

  /** A packet has been given and not received, and it is the only one. */
  predicate OneGiven(s: Rx) { Inv(s) && Solo(s) && |s.given| == |s.received| + 1 }

  /** What the podule still has to do. */
  function Rest(s: Rx): nat
    requires Shape(s)
  {
    match s.pod
    case Resting => BUFFER_SIZE + 8
    case Checking => if FrontComplete(s) then BUFFER_SIZE + 7 else BUFFER_SIZE + 9
    case Storing(i) => if i <= BUFFER_SIZE then BUFFER_SIZE - i + 2 else 0
    case Publishing => 1
    case Advancing => BUFFER_SIZE + 11
    case Finishing => BUFFER_SIZE + 10
    case Faulted => 0
  }

  /** A bound on the rounds until the packet is in flight. */
  function Work(s: Rx): nat
    requires Shape(s)
  {
    3 * |s.owed| + 2 * |s.fifo| + Rest(s)
  }

  lemma GivenFacts(s: Rx)
    requires OneGiven(s) && !InFlight(s)
    ensures Shape(s) && |s.accepted| == |s.received| && !s.pod.Faulted?
    ensures Legal(s.given[|s.accepted|]) && Held(s) + (s.fifo + s.owed) == Frame(s.given[|s.accepted|])
  {
    assert |s.given| == |s.accepted| + 1 && Legal(s.given[|s.accepted|]) by {
      hide Conserved, Counters, Flight, PodProgress, Shape, Solo;
    }
    var gs := s.given[|s.accepted|..];
    assert gs == [s.given[|s.accepted|]] && gs[1..] == [];
    NoFrames();
    assert Frames(gs) == Frame(gs[0]) + [];
    hide Frames, Frame, Counters, Flight, PodProgress, FrameLen;
  }

  lemma WorkBound(s: Rx)
    requires OneGiven(s) && !InFlight(s)
    ensures Shape(s) && Work(s) <= ENOUGH
  {
    GivenFacts(s);
    assert |Frame(s.given[|s.accepted|])| <= BUFFER_SIZE + HEADER;
    hide OneGiven, Frame, FrameLen;
    assert |s.fifo + s.owed| <= BUFFER_SIZE + HEADER;
  }

  lemma OneGivenShape(s: Rx)
    requires OneGiven(s)
    ensures Shape(s)
  {}

  lemma StepKeeps(s: Rx, a: Action)
    requires OneGiven(s) && (a.Write? || a.Pod?)
    ensures OneGiven(Step(s, a)) && Step(s, a).received == s.received
  {
    StepInv(s, a);
    SoloStep(s, a);
    OneGivenShape(s);
    OtherKeeps(s, a);
    GivenKept(s, a);
    hide Inv, Solo, Step, Shape;
  }

  lemma GivenKept(s: Rx, a: Action)
    requires Shape(s) && (a.Write? || a.Pod?)
    ensures Step(s, a).given == s.given
  {
    hide FrameLen, LoadWord, IsReady, StoreWord, PublishedWord, NextSlot, MoveExcess;
  }

  lemma WriteWorks(s: Rx, n: nat)
    requires Shape(s)
    ensures var r := WriteStep(s, n);
      && Work(r) <= Work(s) && (n >= 1 && s.owed != [] ==> Work(r) < Work(s))
      && (s.owed == [] || n == 0 ==> r.owed == s.owed)
  {
    hide FrameLen;
  }

  /** A podule at rest, with nothing more to come, has something to read or a note of it. */
  lemma RestingReads(s: Rx)
    requires OneGiven(s) && !InFlight(s) && s.pod.Resting? && s.owed == [] && !s.pending
    ensures s.fifo != []
  {
    GivenFacts(s);
    var p := s.given[|s.accepted|];
    assert FrontComplete(s) ==> s.pending by { hide Inv; }
    assert Held(s) == s.rxBuf[..s.rxPos] by { hide OneGiven; }
    hide OneGiven, FrameLen, Frame;
    if s.fifo == [] {
      assert s.rxBuf[..s.rxPos] + ([] + []) == s.rxBuf[..s.rxPos];
      WholeFront(s, p);
    }
  }

  lemma WholeFront(s: Rx, p: Packet)
    requires Shape(s) && Legal(p) && s.rxBuf[..s.rxPos] == Frame(p)
    ensures FrontComplete(s)
  {
    assert |Frame(p)| == HEADER + |p.payload|;
    FrameHeader(p, s.rxBuf[s.rxPos..]);
    hide FrameLen, Frame;
    assert s.rxBuf == s.rxBuf[..s.rxPos] + s.rxBuf[s.rxPos..];
  }

  lemma PollWorks(s: Rx, n: nat)
    requires OneGiven(s) && !InFlight(s) && s.pod.Resting?
    ensures Shape(s) && Shape(Poll(s, n)) && Work(Poll(s, n)) <= Work(s)
    ensures n >= 1 && s.owed == [] ==> Work(Poll(s, n)) < Work(s)
  {
    if s.owed == [] && !s.pending { RestingReads(s); }
    Capacity(s);
    assert FrontComplete(s) ==> s.pending by { hide Inv; }
    assert Shape(s) && (s.pending ==> FrontComplete(s)) by { hide Conserved, Counters, Flight, Order; }
    hide OneGiven, FrameLen;
  }

  lemma CheckWorks(s: Rx)
    requires OneGiven(s) && !InFlight(s) && s.pod.Checking?
    ensures Shape(s) && Work(Check(s)) < Work(s)
  {
    OneGivenShape(s);
    LastReadyIffFlight(s);
    Capacity(s);
    hide OneGiven, FrameLen, LoadWord, IsReady;
  }

  lemma FinishWorks(s: Rx)
    requires OneGiven(s) && s.pod.Finishing?
    ensures Shape(s) && Work(Finish(s)) < Work(s)
  {
    assert s.rxPos == FrontLen(s) && Shape(s) by { hide Inv; }
    hide OneGiven, FrameLen, MoveExcess;
  }

  lemma TailWorks(s: Rx, n: nat)
    requires Shape(s) && (s.pod.Storing? || s.pod.Advancing?)
    requires s.pod.Storing? ==> s.pod.i < BUFFER_SIZE
    ensures Work(PodStep(s, n)) < Work(s)
  {
    hide FrameLen, NextSlot;
  }

  lemma PublishFlies(s: Rx, n: nat)
    requires Shape(s) && s.pod.Publishing? && |s.accepted| == |s.received|
    ensures InFlight(PodStep(s, n))
  {
    hide FrameLen, PublishedWord, StoreWord;
  }

  lemma StoringBound(s: Rx)
    requires OneGiven(s) && s.pod.Storing?
    ensures s.pod.i < BUFFER_SIZE
  {
    hide Conserved, Counters, Flight, Order, Solo, FrameLen;
  }

  lemma PodWorks(s: Rx, n: nat)
    requires OneGiven(s) && !InFlight(s)
    ensures var r := PodStep(s, n);
      Shape(s) && Shape(r) && (InFlight(r) || (Work(r) <= Work(s) && (n >= 1 && s.owed == [] ==> Work(r) < Work(s))))
  {
    GivenFacts(s);
    hide OneGiven, Work, Poll, Check, Finish, Shape, Frame;
    match s.pod
    case Resting => PollWorks(s, n);
    case Checking => CheckWorks(s);
    case Storing(i) => StoringBound(s); TailWorks(s, n); hide PodStep;
    case Publishing => PublishFlies(s, n); hide PodStep;
    case Advancing => TailWorks(s, n); hide PodStep;
    case Finishing => FinishWorks(s);
  }

  /** One step: nothing is lost, and it counts if it is of the kind that is needed. */
  lemma StepWorks(s: Rx, a: Action)
    requires OneGiven(s) && !InFlight(s) && (a.Write? || a.Pod?)
    ensures var r := Step(s, a);
      && Shape(s) && Shape(r) && OneGiven(r) && r.received == s.received
      && (s.owed == [] || !Takes(a) ==> r.owed == s.owed)
      && (InFlight(r) || (Work(r) <= Work(s)
                          && (s.owed != [] && Takes(a) ==> Work(r) < Work(s))
                          && (s.owed == [] && Polls(a) ==> Work(r) < Work(s))))
  {
    OneGivenShape(s);
    StepKeeps(s, a);
    if a.Pod? {
      PodWorks(s, a.n);
      OwedKept(s, a.n);
    } else {
      WriteWorks(s, a.n);
    }
    hide OneGiven, Work, PodStep, WriteStep, Shape;
  }

  lemma OwedKept(s: Rx, n: nat)
    requires Shape(s)
    ensures PodStep(s, n).owed == s.owed
  {
    hide FrameLen, LoadWord, IsReady, StoreWord, PublishedWord, NextSlot, MoveExcess;
  }

  /** A list of steps that holds one of the kind needed. */
  lemma {:induction false} ListWorks(s: Rx, acts: seq<Action>)
    requires OneGiven(s) && !InFlight(s) && Shape(s)
    requires forall i :: 0 <= i < |acts| ==> acts[i].Write? || acts[i].Pod?
    ensures var r := Run(s, acts);
      && OneGiven(r) && r.received == s.received
      && (InFlight(r)
          || (Work(r) <= Work(s)
              && ((s.owed != [] && exists i :: 0 <= i < |acts| && Takes(acts[i])) ==> Work(r) < Work(s))
              && ((s.owed == [] && exists i :: 0 <= i < |acts| && Polls(acts[i])) ==> Work(r) < Work(s))))
    decreases |acts|
  {
    hide OneGiven, Work, Step, Shape, InFlight, Takes, Polls;
    if |acts| > 0 {
      StepWorks(s, acts[0]);
      var r, rest := Step(s, acts[0]), acts[1..];
      if InFlight(r) {
        FliesOn(r, rest);
      } else {
        ListWorks(r, rest);
        if i :| 0 <= i < |acts| && Takes(acts[i]) { assert i > 0 ==> Takes(rest[i - 1]); }
        if i :| 0 <= i < |acts| && Polls(acts[i]) { assert i > 0 ==> Polls(rest[i - 1]); }
      }
    }
  }

  lemma {:induction false} FliesOn(s: Rx, acts: seq<Action>)
    requires OneGiven(s) && InFlight(s) && Shape(s)
    requires forall i :: 0 <= i < |acts| ==> acts[i].Write? || acts[i].Pod?
    ensures var r := Run(s, acts);
      OneGiven(r) && r.received == s.received && InFlight(r)
    decreases |acts|
  {
    hide OneGiven, Step, Shape, InFlight;
    if |acts| > 0 {
      StepKeeps(s, acts[0]);
      StillFlies(s, acts[0]);
      FliesOn(Step(s, acts[0]), acts[1..]);
    }
  }

  lemma StillFlies(s: Rx, a: Action)
    requires OneGiven(s) && InFlight(s) && Shape(s) && (a.Write? || a.Pod?)
    ensures InFlight(Step(s, a))
  {
    StepKeeps(s, a);
    AcceptedGrows(s, a);
    AtMostOne(Step(s, a));
    hide Inv, Solo, Step, Shape;
  }

  lemma {:induction false} GapWorks(others: nat -> seq<Action>, s: Rx, n: nat, k: nat)
    requires OneGiven(s) && Shape(s) && Prompt(others)
    ensures var r := Run(s, Gap(others, n, k));
      && OneGiven(r) && r.received == s.received
      && (InFlight(r) || (!InFlight(s) && Work(r) + k <= Work(s)))
    decreases k
  {
    hide OneGiven, Work, Step, Shape, InFlight;
    if k == 0 {
      assert Run(s, []) == s;
      if !InFlight(s) { WorkBound(s); }
    } else {
      hide Run;
      GapWorks(others, s, n, k - 1);
      var t, acts := Run(s, Gap(others, n, k - 1)), others(n + k - 1);
      RunAppend(s, Gap(others, n, k - 1), acts);
      assert Round(acts);
      OneGivenShape(t);
      if InFlight(t) { FliesOn(t, acts); } else { ListWorks(t, acts); }
    }
  }

  /** A packet given is in flight before the last load of the poll loop. */
  lemma PromptBrings(others: nat -> seq<Action>, s: Rx, n: nat, k: nat)
    requires OneGiven(s) && Shape(s) && Prompt(others) && k >= TIMEOUT - 1
    ensures InFlight(Run(s, Gap(others, n, k)))
  {
    hide OneGiven, Work, Run, Shape, InFlight, Gap;
    GapWorks(others, s, n, k);
    if !InFlight(s) { WorkBound(s); }
  }
}
