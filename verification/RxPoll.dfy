/** One call of pipe_rx, run without interruption: it is a run of the podule's steps in RxPipe, and it
    faults under an exact condition. */
module RxPoll {
  import opened Bits
  import opened PoduleRegs
  import opened Framing
  import opened Memory
  import opened Shuffle
  import opened RxPipe

  /** The whole memcpy of pipe_rx_packet. */
  function Stored(s: Rx): (r: Rx)
    requires Shape(s) && s.pod.Storing? && FrontLen(s) <= HEADER + BUFFER_SIZE
    ensures Shape(r) && r.pod.Publishing?
  {
    s.(buf := CopyRest(s.buf, s.rxBuf, 0, HEADER, s.pod.i, FrontLen(s) - HEADER), pod := Publishing)
  }

  /** pipe_rx_packet accepting, and the rest of pipe_rx. */
  function Accept(s: Rx): (r: Rx)
    requires Shape(s) && s.pod.Publishing?
    ensures Shape(r)
  {
    Finish(Advance(Publish(s)))
  }

  /** pipe_rx as pipe_poll calls it. */
  function PollRx(s: Rx, n: nat): (r: Rx)
    requires Shape(s) && s.pod.Resting?
    ensures Shape(r)
  {
    var t := Poll(s, n);
    if !t.pod.Checking? then t
    else
      var u := Check(t);
      if u.pod.Storing? then Accept(Stored(u))
      else if u.pod.Publishing? then Accept(u)
      else if u.pod.Finishing? then Finish(u)
      else u
  }

  function PodSteps(s: Rx, n: nat, k: nat): (r: Rx)
    requires Shape(s)
    ensures Shape(r)
    decreases k
  {
    if k == 0 then s else PodSteps(PodStep(s, n), n, k - 1)
  }

  lemma {:induction false} PodStepsAdd(s: Rx, n: nat, j: nat, k: nat)
    requires Shape(s)
    ensures PodSteps(s, n, j + k) == PodSteps(PodSteps(s, n, j), n, k)
    decreases j
  {
    hide PodStep;
    if j > 0 { PodStepsAdd(PodStep(s, n), n, j - 1, k); }
  }

  lemma Then(s: Rx, u: Rx, n: nat, i: nat, j: nat) returns (k: nat)
    requires Shape(s) && Shape(u) && PodSteps(s, n, i) == u
    ensures PodSteps(s, n, k) == PodSteps(u, n, j)
  {
    hide PodSteps, PodStep;
    PodStepsAdd(s, n, i, j);
    k := i + j;
  }

  lemma {:induction false} StoreSteps(s: Rx, n: nat, k: nat)
    requires Shape(s) && s.pod.Storing? && k == FrontLen(s) - HEADER - s.pod.i && FrontLen(s) <= HEADER + BUFFER_SIZE
    ensures PodSteps(s, n, k) == Stored(s)
    decreases k
  {
    hide FrameLen, CopyRest;
    var len := FrontLen(s) - HEADER;
    CopyOne(s.buf, s.rxBuf, 0, HEADER, s.pod.i, len);
    CopyOne(s.buf[s.pod.i := s.rxBuf[HEADER + s.pod.i]], s.rxBuf, 0, HEADER, s.pod.i + 1, len);
    var t := Store(s, s.pod.i);
    assert PodStep(s, n) == t;
    if t.pod.Storing? {
      StoreSteps(t, n, k - 1);
    }
  }

  lemma AcceptSteps(s: Rx, n: nat)
    requires Shape(s) && s.pod.Publishing?
    ensures PodSteps(s, n, 3) == Accept(s)
  {
    hide Finish, NextSlot, StoreWord, PublishedWord, FrameLen;
    var t := Publish(s);
    var u := Advance(t);
    assert PodStep(s, n) == t && PodStep(t, n) == u && PodStep(u, n) == Finish(u);
    hide PodStep, Publish, Advance;
    assert PodSteps(s, n, 3) == PodSteps(t, n, 2) == PodSteps(u, n, 1) == Finish(u);
  }

  lemma FromCheck(u: Rx, n: nat) returns (k: nat)
    requires Shape(u) && !u.pod.Checking?
    requires u.pod.Storing? ==> u.pod.i == 0 && FrontLen(u) <= HEADER + BUFFER_SIZE
    ensures PodSteps(u, n, k) ==
      if u.pod.Storing? then Accept(Stored(u))
      else if u.pod.Publishing? then Accept(u)
      else if u.pod.Finishing? then Finish(u)
      else u
  {
    hide Accept, Finish, FrameLen, Stored, PodStep, PodSteps, CopyRest;
    k := 0;
    if u.pod.Finishing? {
      FinishStep(u, n);
      k := 1;
    } else if u.pod.Storing? {
      StoreSteps(u, n, FrontLen(u) - HEADER);
      AcceptSteps(Stored(u), n);
      k := Then(u, Stored(u), n, FrontLen(u) - HEADER, 3);
    } else if u.pod.Publishing? {
      AcceptSteps(u, n);
      k := 3;
    } else {
      NoSteps(u, n);
    }
  }

  lemma NoSteps(u: Rx, n: nat)
    requires Shape(u)
    ensures PodSteps(u, n, 0) == u
  {}

  lemma FinishStep(u: Rx, n: nat)
    requires Shape(u) && u.pod.Finishing?
    ensures PodSteps(u, n, 1) == Finish(u)
  {
    hide Finish;
    assert PodStep(u, n) == Finish(u);
    assert PodSteps(u, n, 1) == PodSteps(PodStep(u, n), n, 0);
  }

  lemma CheckResult(t: Rx)
    requires Shape(t) && t.pod.Checking?
    ensures var u := Check(t);
      && !u.pod.Checking? && (u.pod.Storing? ==> u.pod.i == 0 && FrontLen(u) <= HEADER + BUFFER_SIZE)
  {
    hide FrameLen, LoadWord, IsReady;
  }

  /** One uninterrupted call of pipe_rx is a run of the podule's steps. */
  lemma PollIsRun(s: Rx, n: nat) returns (k: nat)
    requires Shape(s) && s.pod.Resting?
    ensures PollRx(s, n) == PodSteps(s, n, k)
  {
    hide Poll, Check, Accept, Finish, FrameLen, Stored;
    var t := Poll(s, n);
    assert PodStep(s, n) == t;
    if t.pod.Checking? {
      var u := Check(t);
      assert PodStep(t, n) == u;
      CheckResult(t);
      var j := FromCheck(u, n);
      hide PodStep;
      assert PodSteps(s, n, 2) == PodSteps(t, n, 1) == u;
      k := Then(s, u, n, 2, j);
    } else {
      assert PodSteps(s, n, 1) == t;
      k := 1;
    }
  }

  lemma {:induction false} PodStepsInv(s: Rx, n: nat, k: nat)
    requires Inv(s)
    ensures Inv(PodSteps(s, n, k))
    decreases k
  {
    if k > 0 {
      PodInv(s, n);
      PodStepsInv(PodStep(s, n), n, k - 1);
    }
  }

  lemma PollInvariant(s: Rx, n: nat)
    requires Inv(s) && s.pod.Resting?
    ensures Inv(PollRx(s, n))
  {
    var k := PollIsRun(s, n);
    PodStepsInv(s, n, k);
  }

  /** pipe_rx as written runs out of its array exactly when it consumes a frame with bytes of the
      next one behind it: one poll faults if and only if, after its read, the buffer holds more
      than the frame at its front and the ring has room for that frame. */
  lemma PollFaultExact(s: Rx, n: nat)
    requires Inv(s) && s.pod.Resting?
    ensures var t := Poll(s, n);
      PollRx(s, n).pod.Faulted? <==>
        s.form.AsWritten? && t.pod.Checking? && FrontComplete(t) && t.rxPos > FrontLen(t) && !InFlight(t)
  {
    PollInv(s, n);
    var t := Poll(s, n);
    if t.pod.Checking? {
      LastReadyIffFlight(t);
      Capacity(t);
      var u := Check(t);
      hide FrameLen, LoadWord, IsReady, StoreWord, PublishedWord, NextSlot, CopyRest, MoveExcess;
      if u.pod.Storing? {
        FaultExact(Advance(Publish(Stored(u))));
      }
    }
  }
}
