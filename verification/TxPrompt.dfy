/** A podule that keeps polling retires every published packet in time. */
module TxPrompt {
  import opened Bits
  import opened PoduleRegs
  import opened Framing
  import opened ArcWaits
  import opened TxPipe

  const SPAN: nat := BUFFER_SIZE + HEADER_SIZE

  /** Enough steps for any packet, whatever the podule was doing. */
  const ENOUGH: nat := 3 * SPAN + 18

  /** Steps of the podule of which the link, if it is up, takes a byte each time. */
  predicate Working(acts: seq<Action>) { forall i :: 0 <= i < |acts| ==> acts[i].Pod? && acts[i].accept >= 1 }

  /** Between the first load and the last of any poll loop the podule makes enough steps, and the link
      neither comes up nor goes down. */
  ghost predicate Prompt(others: nat -> seq<Action>) {
    (forall n :: Working(others(n))) && (forall n :: InTime(others, n))
  }

  predicate InTime(others: nat -> seq<Action>, n: nat) { |Gap(others, n, TIMEOUT - 1)| >= ENOUGH }

  lemma {:induction false} OneEach(others: nat -> seq<Action>, n: nat, k: nat)
    requires forall i :: Working(others(i)) && |others(i)| >= 1
    ensures |Gap(others, n, k)| >= k
    decreases k
  {
    if k > 0 { OneEach(others, n, k - 1); }
  }

  /** One step of the podule to each access of the Archimedes is enough. */
  lemma OneStepEach(others: nat -> seq<Action>)
    requires forall i :: Working(others(i)) && |others(i)| >= 1
    ensures Prompt(others)
  {
    forall n ensures InTime(others, n) { OneEach(others, n, TIMEOUT - 1); }
  }

  lemma {:induction false} GapWorking(others: nat -> seq<Action>, n: nat, k: nat)
    requires forall i :: Working(others(i))
    ensures Working(Gap(others, n, k))
    decreases k
  {
    if k > 0 { GapWorking(others, n, k - 1); }
  }

  /** A bound on the podule's steps until the pending packet is retired. */
  function Work(s: Tx): nat
    requires Shape(s)
  {
    match s.pod
    case Resting =>
      if s.ongoing then (if s.connected then 2 * (s.total - s.pos) + 6 else 7)
      else if s.connected then 3 * SPAN + 15 else 5
    case Sampled(up) =>
      if s.ongoing then (if up then (if s.connected then 2 * (s.total - s.pos) + 5 else 8)
                         else if s.connected then 3 * SPAN + 16 else 6)
      else if !up then 4
      else if s.connected then 3 * SPAN + 14 else SPAN + 12
    case Copying(len, addr, i) => len - i + (if s.connected then 2 * SPAN + 8 else 10)
    case Retiring => 3
    case Clearing(w) => 2
    case Advancing => 3 * SPAN + 17
  }

  lemma WorkBound(s: Tx)
    requires Shape(s)
    ensures 1 < Work(s) <= ENOUGH
  {}

  lemma RestingWorks(s: Tx, accept: nat)
    requires Shape(s) && s.pod.Resting?
    ensures Work(PodStep(s, accept)) < Work(s)
  {}

  lemma ContinueWorks(s: Tx, accept: nat)
    requires Shape(s) && s.pod.Sampled? && s.pod.up && s.ongoing && s.pos < s.total && accept >= 1
    ensures Work(Continue(s, accept)) < Work(s)
  {}

  lemma CheckWorks(s: Tx)
    requires Inv(s) && Pending(s) && s.pod.Sampled? && !s.ongoing
    ensures Work(CheckRegisters(s, s.pod.up)) < Work(s)
  {
    SampleInv(s);
    assert IsReady(WordFor(s.arc.call)) && Shape(s) by {
      hide Counters, OnlyHeadReady, Published, ArcProgress, PodProgress;
    }
    hide Inv, LoadWord, IsReady, SizeField, AddrField, CidField, Header, WordFor;
  }

  lemma CopyWorks(s: Tx, accept: nat)
    requires Shape(s) && s.pod.Copying? && !s.ongoing && accept >= 1
    ensures Work(PodStep(s, accept)) < Work(s)
  {
    hide Header;
  }

  lemma PendingFacts(s: Tx)
    requires Inv(s) && Pending(s)
    ensures s.ongoing ==> s.pos < s.total && (s.pod.Resting? || s.pod.Sampled?)
    ensures s.pod.Copying? ==> !s.ongoing
  {
    hide Counters, OnlyHeadReady, Published, ArcProgress, Frame;
  }

  lemma TailWorks(s: Tx, accept: nat)
    requires Shape(s) && (s.pod.Retiring? || s.pod.Advancing? || (s.pod.Sampled? && !s.pod.up && s.ongoing))
    requires s.pod.Advancing? ==> !s.ongoing
    ensures Work(PodStep(s, accept)) < Work(s)
  {
    hide LoadWord, NextSlot;
  }

  lemma StepWorks(s: Tx, accept: nat)
    requires Inv(s) && Pending(s) && accept >= 1
    ensures var r := PodStep(s, accept);
      Shape(s) && Shape(r) && (!Pending(r) || Work(r) < Work(s))
  {
    assert Shape(s) by { hide Counters, OnlyHeadReady, LastCall, Published, ArcProgress, PodProgress; }
    PendingFacts(s);
    PodFrozen(s, accept);
    hide Inv, Work, Continue, CheckRegisters, Launch, Shape;
    match s.pod
    case Resting => RestingWorks(s, accept); hide PodStep;
    case Sampled(up) =>
      if !s.ongoing { CheckWorks(s); } else if up { ContinueWorks(s, accept); } else { TailWorks(s, accept); }
    case Copying(len, addr, i) => CopyWorks(s, accept); hide PodStep;
    case Clearing(w) => hide PodStep;
    case _ => TailWorks(s, accept); hide PodStep;
  }

  /** Steps enough, and the call is retired. */
  lemma {:induction false} WorkRetires(s: Tx, acts: seq<Action>)
    requires Inv(s) && Shape(s) && s.arc.Polling? && Working(acts) && |acts| >= Work(s)
    ensures Run(s, acts).retired == |s.calls|
    decreases |acts|
  {
    hide Inv, PodStep, Shape, Work;
    WorkBound(s);
    BusyIffPending(s);
    assert Others(acts);
    if !Pending(s) {
      RetiredStays(s, acts);
      RetiredBound(Run(s, acts));
      hide Run;
    } else {
      var a := acts[0].accept;
      StepWorks(s, a);
      PodInv(s, a);
      PodFrozen(s, a);
      var r := PodStep(s, a);
      assert Step(s, acts[0]) == r;
      if Pending(r) {
        WorkRetires(r, acts[1..]);
      } else {
        BusyIffPending(r);
        RetiredStays(r, acts[1..]);
        RetiredBound(Run(r, acts[1..]));
      }
    }
  }

  /** A prompt podule retires the call before the last load of the poll loop. */
  lemma PromptRetires(others: nat -> seq<Action>, s: Tx, n: nat)
    requires Inv(s) && Shape(s) && s.arc.Polling? && Prompt(others)
    ensures Run(s, Gap(others, n, TIMEOUT - 1)).retired == |s.calls|
  {
    hide Inv, Run, Shape, Work, Working, Gap;
    var acts := Gap(others, n, TIMEOUT - 1);
    GapWorking(others, n, TIMEOUT - 1);
    WorkBound(s);
    assert InTime(others, n);
    WorkRetires(s, acts);
  }
}
