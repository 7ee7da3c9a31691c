/** A packet that the podule holds and does not deliver: pipe_poll calls pipe_rx only for USB data to read
    or for a packet refused before, so a whole frame that came along with the one before it waits until the
    server sends something else. */
module RxStranded {
  import opened Bits
  import opened PoduleRegs
  import opened Framing
  import opened Shuffle
  import opened RxPipe
  import opened RxPoll
  import opened Sequences
  import Podule
  import RxFaults
  import RxProgress
  import RxSettling

  /** A whole frame in the buffer, nothing to read, and no note of a packet refused. */
  predicate Stranded(s: Rx) {
    && Shape(s) && s.pod.Resting? && FrontComplete(s) && !s.pending && s.fifo == [] && s.owed == []
  }

  predicate NoSend(acts: seq<Action>) { forall i :: 0 <= i < |acts| ==> !acts[i].Send? }

  lemma StrandedStep(s: Rx, a: Action)
    requires Stranded(s) && !a.Send?
    ensures Stranded(Step(s, a)) && Step(s, a).accepted == s.accepted
  {
    hide ArcStep, FrameLen;
  }

  /** However long the Archimedes waits. */
  lemma {:induction false} StrandedRun(s: Rx, acts: seq<Action>)
    requires Shape(s) && Stranded(s) && NoSend(acts)
    ensures Stranded(Run(s, acts)) && Run(s, acts).accepted == s.accepted
    decreases |acts|
  {
    hide Step, Shape, Stranded;
    if |acts| > 0 {
      StrandedStep(s, acts[0]);
      StrandedRun(Step(s, acts[0]), acts[1..]);
    }
  }

  /** One poll on two whole frames that the buffer has room for. */
  lemma PollStrands(r: Rx, p: Packet, q: Packet)
    requires Inv(r) && r.form.Intended? && r.pod.Resting? && !r.pending && r.rxPos == 0 && !InFlight(r)
    requires r.fifo == Frame(p) + Frame(q) && r.owed == [] && Legal(p) && Legal(q)
    requires |Frame(p)| + |Frame(q)| <= RxProgress.WHOLE
    ensures var u := PollRx(r, RxProgress.WHOLE);
      Stranded(u) && u.accepted == r.accepted + [p]
  {
    var w := RxProgress.WHOLE;
    var f, g := Frame(p), Frame(q);
    assert Shape(r) && |r.rxBuf| == w;
    FrameNonEmpty(p);
    FrameNonEmpty(q);
    LastReadyIffFlight(r);
    hide Inv, PollRx, Frame, FrameLen, LoadWord, IsReady, Podule.Examined, Podule.ReadIn, FirstPacket;
    Podule.PollIs(r, w);
    var t := Podule.ReadIn(r, w);
    ReadBoth(r, f, g);
    FrameHeader(p, t.rxBuf[|f|..]);
    FrameHeader(q, []);
    FrontIs(t, p);
    assert t.rxBuf[|f|..t.rxPos] == (f + g)[|f|..] == g;
    ExaminedStrands(t, p, q);
  }

  lemma ReadBoth(r: Rx, f: seq<Byte>, g: seq<Byte>)
    requires Shape(r) && !r.pending && r.rxPos == 0 && r.fifo == f + g && |f| + |g| <= RxProgress.WHOLE
    ensures var t := Podule.ReadIn(r, RxProgress.WHOLE);
      && t == r.(rxBuf := t.rxBuf, rxPos := |f| + |g|, fifo := [])
      && |t.rxBuf| == |r.rxBuf| && t.rxBuf[..t.rxPos] == f + g && t.rxBuf == f + t.rxBuf[|f|..]
  {
    hide FrameLen;
    assert r.fifo[..|r.fifo|] == r.fifo && r.fifo[|r.fifo|..] == [];
  }

  lemma FrontIs(t: Rx, p: Packet)
    requires Shape(t) && t.pod.Resting? && |Frame(p)| <= t.rxPos && Legal(p)
    requires t.rxBuf == Frame(p) + t.rxBuf[|Frame(p)|..]
    ensures FrontLen(t) == |Frame(p)| == HEADER + |p.payload| && FrontComplete(t) && FrontPacket(t) == p
  {
    FrameHeader(p, t.rxBuf[|Frame(p)|..]);
    hide FrameLen, Shape;
    assert FirstPacket(t.rxBuf) == FrontPacket(t);
  }

  lemma ExaminedStrands(t: Rx, p: Packet, q: Packet)
    requires Shape(t) && t.pod.Resting? && t.form.Intended? && !IsReady(LoadWord(t.descrs[t.last]))
    requires FrontComplete(t) && FrontPacket(t) == p && FrontLen(t) == |Frame(p)| && t.rxPos <= |t.rxBuf|
    requires t.rxBuf[|Frame(p)|..t.rxPos] == Frame(q) && Legal(q) && t.fifo == [] && t.owed == []
    ensures var u := Podule.Examined(t);
      Stranded(u) && u.accepted == t.accepted + [p]
  {
    FrameNonEmpty(q);
    var d := Podule.Delivered(t);
    var e := d.(pod := Finishing);
    hide LoadWord, IsReady, StoreWord, PublishedWord, NextSlot, Frame, FrameLen, MoveExcess;
    assert Podule.Examined(t) == Finish(e);
    assert e.rxBuf == t.rxBuf && e.rxPos == t.rxPos && e.accepted == t.accepted + [p];
    ShuffleExact(t.form, t.rxBuf, t.rxPos, FrontLen(t));
    var u := Finish(e);
    assert u.rxBuf[..u.rxPos] == Frame(q);
    RxSettling.Fronted(q, u.rxBuf, u.rxPos);
  }

  /** From power-up, with the subtraction as the comment asks for: two packets that fit the buffer together,
      both sent before the podule reads, leave the second one stranded. It is not received however the
      run goes on, until the server sends another. */
  lemma SecondPacketStrands(s: Rx, p: Packet, q: Packet) returns (k: nat)
    requires Initial(s) && s.form.Intended? && Legal(p) && Legal(q)
    requires |Frame(p)| + |Frame(q)| <= RxProgress.WHOLE
    ensures var w := RxProgress.WHOLE;
      var r := Run(s, [Send(p), Write(w), Send(q), Write(w)] + Repeat(Pod(w), k));
      && Stranded(r) && r.accepted == [p] && r.given == [p, q]
      && forall more :: NoSend(more) ==> Run(r, more).received <= [p]
  {
    var w := RxProgress.WHOLE;
    var sent := [Send(p), Write(w), Send(q), Write(w)];
    RxFaults.BothSent(s, p, q);
    InitialInv(s);
    RunInv(s, sent);
    var r := Run(s, sent);
    assert Shape(s) && Shape(r);
    PollStrands(r, p, q);
    hide Run, Inv, Initial, PollRx, Shape, Frame, Stranded;
    k := PollIsRun(r, w);
    RxProgress.PodRun(r, w, k);
    RunAppend(s, sent, Repeat(Pod(w), k));
    RunInv(r, Repeat(Pod(w), k));
    var u := Run(r, Repeat(Pod(w), k));
    assert [] + [p] == [p];
    KeepsGiven(r, w, k);
    forall more | NoSend(more) ensures Run(u, more).received <= [p] {
      StrandedRun(u, more);
      RunInv(u, more);
      ReceivedAccepted(Run(u, more));
    }
  }

  lemma ReceivedAccepted(s: Rx)
    requires Inv(s)
    ensures s.received <= s.accepted
  {
    hide Conserved, Counters, Flight, PodProgress, Shape;
  }

  lemma {:induction false} KeepsGiven(s: Rx, n: nat, k: nat)
    requires Shape(s)
    ensures Run(s, Repeat(Pod(n), k)).given == s.given
    decreases k
  {
    hide PodStep, Shape;
    if k > 0 {
      assert Repeat(Pod(n), k)[1..] == Repeat(Pod(n), k - 1);
      RxSettling.KeepsGiven(s, Pod(n));
      KeepsGiven(PodStep(s, n), n, k - 1);
    }
  }
}
