/** The transmit direction cannot get stuck: from every state of every run on a link that has stayed up,
    the two parties can finish what is under way. */
module TxSettling {
  import opened Bits
  import opened PoduleRegs
  import opened Framing
  import opened TxPipe
  import opened TxWire
  import opened TxPoll
  import opened TxProgress
  import opened Sequences

  /** Any state of a run on a link that has stayed up. */
  predicate Live(s: Tx) { Inv(s) && WireExact(s) && s.steady }

  /** A bound on the podule's steps until it rests, nothing being published, if the link takes whole frames. */
  function Distance(s: Tx): nat {
    if Pending(s) then
      match s.pod
      case Resting => BUFFER_SIZE + 9
      case Sampled(up) => BUFFER_SIZE + 8
      case Copying(len, addr, i) => if i <= len <= BUFFER_SIZE then len - i + 7 else 0
      case Retiring => 6
      case Clearing(w) => 5
      case Advancing => BUFFER_SIZE + 10
    else
      match s.pod
      case Resting => 0
      case _ => 1
  }

  predicate AtRest(s: Tx) { !Pending(s) && s.pod.Resting? }

  /** The podule leaves the Archimedes and its calls alone. */
  lemma PodLeaves(s: Tx)
    requires Live(s)
    ensures var r := PodStep(s, WHOLE);
      Live(r) && r.arc == s.arc && r.calls == s.calls
  {
    WirePod(s, WHOLE);
    PodFrozen(s, WHOLE);
    hide Inv, WireExact, PodStep;
  }

  lemma SampledUp(s: Tx)
    requires Live(s) && s.pod.Sampled?
    ensures s.pod.up
  {
    hide Inv, Frames;
  }

  lemma StartsNearer(s: Tx)
    requires Live(s) && Pending(s) && s.pod.Sampled? && !s.ongoing
    ensures var r := CheckRegisters(s, true);
      (r.pod.Copying? && r.pod.i == 0 && r.pod.len < BUFFER_SIZE) || r.pod.Retiring?
  {
    SampleInv(s);
    assert IsReady(WordFor(s.arc.call)) && Shape(s) by {
      hide Counters, OnlyHeadReady, Published, ArcProgress, PodProgress, WireExact;
    }
    hide Inv, WireExact, LoadWord, IsReady, SizeField, AddrField, CidField, Header, WordFor;
  }

  lemma ContinuesNearer(s: Tx)
    requires Live(s) && s.pod.Sampled? && s.ongoing
    ensures Continue(s, WHOLE).pod.Retiring?
  {
    hide Inv, WireExact;
    OngoingShape(s);
  }

  lemma OngoingShape(s: Tx)
    requires Inv(s) && s.ongoing
    ensures Shape(s) && s.pos <= s.total <= WHOLE
  {
    hide Counters, OnlyHeadReady, LastCall, Published, ArcProgress, PodProgress;
  }

  lemma CopiesNearer(s: Tx)
    requires Shape(s) && s.pod.Copying?
    ensures s.pod.i < s.pod.len ==> PodStep(s, WHOLE).pod == Copying(s.pod.len, s.pod.addr, s.pod.i + 1)
    ensures s.pod.i == s.pod.len ==> PodStep(s, WHOLE).pod.Retiring?
  {
    hide Header;
  }

  lemma RetiresNearer(s: Tx)
    requires Live(s) && Pending(s) && s.pod.Clearing?
    ensures !Pending(PodStep(s, WHOLE)) && PodStep(s, WHOLE).pod.Advancing?
  {
    hide Inv, WireExact, StoreWord, ClearReady;
  }

  lemma QuietNearer(s: Tx)
    requires Live(s) && !Pending(s) && !s.pod.Resting?
    ensures AtRest(PodStep(s, WHOLE))
  {
    PodFrozen(s, WHOLE);
    assert (s.pod.Sampled? || s.pod.Advancing?) && !s.ongoing by {
      hide Counters, OnlyHeadReady, Published, ArcProgress, WireExact;
    }
    if s.pod.Sampled? { SampleInv(s); }
    assert Shape(s) by { hide Counters, OnlyHeadReady, LastCall, Published, ArcProgress, PodProgress, WireExact; }
    hide Inv, WireExact, LoadWord, IsReady, NextSlot, Start;
  }

  lemma ShapeOf(s: Tx)
    requires Live(s)
    ensures Shape(s)
  {
    hide Counters, OnlyHeadReady, LastCall, Published, ArcProgress, PodProgress, WireExact;
  }

  /** No packet is published while the podule moves on from the last one. */
  lemma NotAdvancing(s: Tx)
    requires Live(s) && Pending(s) && s.pod.Advancing?
    ensures Distance(PodStep(s, WHOLE)) < Distance(s)
  {
    PodFrozen(s, WHOLE);
    hide Inv, WireExact, NextSlot;
  }

  lemma PendingNearer(s: Tx)
    requires Live(s) && Pending(s)
    ensures Distance(PodStep(s, WHOLE)) < Distance(s)
  {
    ShapeOf(s);
    PodFrozen(s, WHOLE);
    hide Live, Shape;
    match s.pod
    case Sampled(up) =>
      SampledUp(s);
      hide CheckRegisters, Continue;
      if s.ongoing { ContinuesNearer(s); } else { StartsNearer(s); }
    case Copying(len, addr, i) => CopiesNearer(s); CopyBound(s); hide PodStep;
    case Clearing(w) => RetiresNearer(s); hide PodStep;
    case Advancing => NotAdvancing(s); hide PodStep;
    case _ => StepsNearer(s); hide PodStep;
  }

  lemma StepsNearer(s: Tx)
    requires Shape(s) && (s.pod.Resting? || s.pod.Retiring?)
    ensures PodStep(s, WHOLE).pod
      == if s.pod.Resting? then Sampled(s.connected) else Clearing(LoadWord(s.descrs[s.tail]))
    ensures PodStep(s, WHOLE).retired == s.retired
  {
    hide LoadWord, Shape;
  }

  lemma PodNearer(s: Tx)
    requires Live(s) && !AtRest(s)
    ensures Shape(s) && Distance(PodStep(s, WHOLE)) < Distance(s)
  {
    ShapeOf(s);
    if Pending(s) { PendingNearer(s); } else { QuietNearer(s); }
    hide Live, PodStep, Shape;
  }

  lemma CopyBound(s: Tx)
    requires Shape(s) && s.pod.Copying?
    ensures s.pod.i <= s.pod.len <= BUFFER_SIZE
  {}

  /** The podule comes to rest with nothing published. */
  lemma {:induction false} PodSettles(s: Tx) returns (k: nat)
    requires Live(s) && Shape(s)
    ensures var r := PodSteps(s, WHOLE, k);
      Live(r) && AtRest(r) && r.arc == s.arc && r.calls == s.calls
    decreases Distance(s)
  {
    hide Live, Distance, PodStep, Shape, AtRest;
    if AtRest(s) {
      k := 0;
      assert PodSteps(s, WHOLE, 0) == s;
    } else {
      PodLeaves(s);
      PodNearer(s);
      var t := PodStep(s, WHOLE);
      k := PodSettles(t);
      assert PodSteps(s, WHOLE, k + 1) == PodSteps(t, WHOLE, k);
      k := k + 1;
      hide PodSteps;
    }
  }

  /** At rest with nothing published, an idle Archimedes has had all its calls retired. */
  lemma IdleReady(s: Tx)
    requires Live(s) && AtRest(s) && s.arc.Idle?
    ensures Ready(s)
  {
    assert s.retired == |s.calls| && !s.ongoing by {
      hide OnlyHeadReady, Published, ArcProgress, WireExact, Slot;
    }
    IdleWire(s);
    hide Inv, WireExact, Frames;
  }

  lemma RestLeaves(s: Tx)
    requires Live(s) && AtRest(s) && s.arc.Polling?
    ensures Ready(ArcStep(s)) && ArcStep(s).calls == s.calls
  {
    assert !s.ongoing by { hide Counters, OnlyHeadReady, Published, ArcProgress, WireExact; }
    hide Inv, WireExact;
    Leaves(s);
  }

  /** The podule's part, as a run. */
  lemma PodRuns(s: Tx) returns (acts: seq<Action>)
    requires Live(s) && Shape(s)
    ensures Inside(acts)
    ensures var r := Run(s, acts);
      Live(r) && AtRest(r) && r.arc == s.arc && r.calls == s.calls
  {
    var k := PodSettles(s);
    acts := Repeat(Pod(WHOLE), k);
    hide Live, AtRest, Run, PodSteps, Shape;
    PodRun(s, WHOLE, k);
  }

  /** The Archimedes' part up to publication, as a run. */
  lemma ArcRuns(s: Tx) returns (acts: seq<Action>)
    requires Live(s) && Shape(s)
    ensures Inside(acts)
    ensures var r := Run(s, acts);
      Live(r) && r.calls == s.calls && (r.arc.Idle? || r.arc.Polling?)
  {
    if s.arc.Filling? || s.arc.Publishing? {
      var k := Left(s);
      acts := Repeat(Arc, k);
      Publishes(s, k);
      ArcRun(s, k);
      WireRun(s, acts);
      hide Inv, WireExact, Run, ArcSteps, Left, Shape;
    } else {
      acts := [];
      assert Run(s, []) == s;
    }
  }

  /** The Archimedes' last poll, if it is still polling. */
  lemma LeaveRuns(u: Tx) returns (acts: seq<Action>)
    requires Live(u) && AtRest(u) && (u.arc.Idle? || u.arc.Polling?)
    ensures Inside(acts) && Shape(u)
    ensures Ready(Run(u, acts)) && Run(u, acts).calls == u.calls
  {
    ShapeOf(u);
    hide Live, AtRest, Ready, ArcStep, Shape;
    if u.arc.Idle? {
      IdleReady(u);
      acts := [];
      assert Run(u, []) == u;
    } else {
      RestLeaves(u);
      hide Run;
      OneArc(u);
      acts := [Arc];
    }
  }

  /** From every state of every run on a link that has stayed up, steps of the two parties alone finish
      the call under way: it is retired, and exactly the frames of the calls that fit are on the wire. */
  lemma CallCanFinish(s: Tx) returns (acts: seq<Action>)
    requires Live(s)
    ensures Inside(acts)
    ensures Ready(Run(s, acts)) && Run(s, acts).calls == s.calls
  {
    ShapeOf(s);
    hide Live, AtRest, Run, Shape, Ready;
    var fill := ArcRuns(s);
    var t := Run(s, fill);
    var take := PodRuns(t);
    var leave := LeaveRuns(Run(t, take));
    RunAppend(t, take, leave);
    RunAppend(s, fill, take + leave);
    acts := fill + (take + leave);
  }
}
