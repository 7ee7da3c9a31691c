/** The podule's reassembly of any bytes at all, whether or not they are frames of packets that the pipe
    can carry. */
module RxStream {
  import opened Bits
  import opened PoduleRegs
  import opened Framing
  import opened Shuffle
  import opened RxPipe
  import opened Sequences

  /** Power-up with any bytes already in the link. */
  predicate InitialWith(s: Rx) { Initial(s.(fifo := [])) && Shape(s) }

  /** Frames accepted, bytes held and bytes still to come are the stream, whatever it is. */
  predicate StreamKept(s: Rx, stream: seq<Byte>)
    requires Shape(s)
  {
    && AllSized(s.accepted)
    && (s.pod.Faulted? || Frames(s.accepted) + (Held(s) + (s.fifo + s.owed)) == stream + Frames(s.given))
  }

  lemma SendKeeps(s: Rx, p: Packet, stream: seq<Byte>)
    requires Shape(s) && StreamKept(s, stream)
    ensures StreamKept(SendStep(s, p), stream)
  {
    hide Frames, Frame, Shape;
    var r := SendStep(s, p);
    if r != s && !s.pod.Faulted? {
      FramesSnoc(s.given, p);
      var a, h := Frames(s.accepted), Held(s);
      assert s.fifo + [] == s.fifo;
      assert a + (h + (s.fifo + Frame(p))) == (a + (h + s.fifo)) + Frame(p);
      assert stream + (Frames(s.given) + Frame(p)) == (stream + Frames(s.given)) + Frame(p);
    }
  }

  lemma WriteKeeps(s: Rx, n: nat, stream: seq<Byte>)
    requires Shape(s) && StreamKept(s, stream)
    ensures StreamKept(WriteStep(s, n), stream)
  {
    hide Frames, Shape;
    Transfer(s.fifo, s.owed, Min(n, |s.owed|));
  }

  lemma PollKeeps(s: Rx, n: nat, stream: seq<Byte>)
    requires Shape(s) && StreamKept(s, stream) && s.pod.Resting?
    ensures StreamKept(Poll(s, n), stream)
  {
    hide Frames, FrameLen;
    var r := Poll(s, n);
    if r.pod.Checking? && !s.pending {
      var m := r.rxPos - s.rxPos;
      assert r.rxBuf[..r.rxPos] == s.rxBuf[..s.rxPos] + s.fifo[..m];
      Regroup(s.rxBuf[..s.rxPos], s.fifo, m, s.owed);
    }
  }

  /** A whole frame at the front of the buffer. */
  lemma FrontSplits(s: Rx)
    requires Shape(s) && FrontComplete(s)
    ensures Sized(FrontPacket(s))
    ensures s.rxBuf[..s.rxPos] == Frame(FrontPacket(s)) + s.rxBuf[FrontLen(s)..s.rxPos]
  {
    var held, n := s.rxBuf[..s.rxPos], FrontLen(s);
    assert FrameLen(held) == n && held[HEADER..n] == s.rxBuf[HEADER..n];
    assert FirstPacket(held) == FrontPacket(s);
    FrameOfFirst(held);
    hide Frame, FrameLen, FirstPacket, Shape;
    SplitAt(held, n);
    assert held[n..] == s.rxBuf[n..s.rxPos];
  }

  lemma PublishKeeps(s: Rx, stream: seq<Byte>)
    requires Shape(s) && StreamKept(s, stream) && s.pod.Publishing?
    ensures StreamKept(Publish(s), stream)
  {
    FrontSplits(s);
    FramesSnoc(s.accepted, FrontPacket(s));
    hide Frames, PublishedWord, StoreWord, Frame, FrameLen, Shape, FrontPacket;
    var a, f, t := Frames(s.accepted), Frame(FrontPacket(s)), s.rxBuf[FrontLen(s)..s.rxPos];
    var rest := s.fifo + s.owed;
    assert a + ((f + t) + rest) == (a + f) + (t + rest);
  }

  lemma FinishKeeps(s: Rx, stream: seq<Byte>)
    requires Shape(s) && StreamKept(s, stream) && s.pod.Finishing?
    ensures StreamKept(Finish(s), stream)
  {
    hide Frames, MoveExcess;
    if s.rxPos > FrontLen(s) { ShuffleExact(s.form, s.rxBuf, s.rxPos, FrontLen(s)); }
    hide FrameLen;
  }

  lemma OtherPodKeeps(s: Rx, n: nat, stream: seq<Byte>)
    requires Shape(s) && StreamKept(s, stream)
    requires s.pod.Checking? || s.pod.Storing? || s.pod.Advancing? || s.pod.Faulted?
    ensures StreamKept(PodStep(s, n), stream)
  {
    hide Frames, FrameLen, LoadWord, IsReady, NextSlot;
  }

  lemma ArcKeeps(s: Rx, stream: seq<Byte>)
    requires Shape(s) && StreamKept(s, stream)
    ensures StreamKept(ArcStep(s), stream)
  {
    hide Frames, FrameLen, ArcStep;
  }

  lemma StepKeeps(s: Rx, a: Action, stream: seq<Byte>)
    requires Shape(s) && StreamKept(s, stream)
    ensures StreamKept(Step(s, a), stream)
  {
    hide StreamKept, ArcStep, SendStep, WriteStep, Poll, Publish, Finish, Shape;
    match a
    case Send(p) => SendKeeps(s, p, stream);
    case Write(n) => WriteKeeps(s, n, stream);
    case Receive => WaitKeeps(s, stream);
    case Arc => ArcKeeps(s, stream);
    case Pod(n) =>
      match s.pod {
        case Resting => PollKeeps(s, n, stream);
        case Publishing => PublishKeeps(s, stream);
        case Finishing => FinishKeeps(s, stream);
        case _ => OtherPodKeeps(s, n, stream);
      }
  }

  lemma WaitKeeps(s: Rx, stream: seq<Byte>)
    requires Shape(s) && StreamKept(s, stream)
    ensures Shape(s.(arc := Polling)) && StreamKept(s.(arc := Polling), stream)
  {
    hide Frames, FrameLen;
  }

  lemma {:induction false} RunKeeps(s: Rx, acts: seq<Action>, stream: seq<Byte>)
    requires Shape(s) && StreamKept(s, stream)
    ensures StreamKept(Run(s, acts), stream)
    decreases |acts|
  {
    hide StreamKept, Step, Shape;
    if |acts| > 0 {
      StepKeeps(s, acts[0], stream);
      RunKeeps(Step(s, acts[0]), acts[1..], stream);
    }
  }

  /** Whatever bytes the link brings, frames of packets or not, however they are cut and however long
      the Archimedes leaves a descriptor unconsumed: the frames accepted by pipe_rx_packet, the bytes
      held and those still to come are together the whole stream, so what has been accepted is what
      the pure decoder finds first in it. */
  lemma ReassemblyConserves(s: Rx, acts: seq<Action>)
    requires InitialWith(s)
    ensures var r := Run(s, acts);
      var stream := s.fifo + Frames(r.given);
      !r.pod.Faulted? ==>
        && Frames(r.accepted) + (Held(r) + (r.fifo + r.owed)) == stream
        && r.accepted <= Decode(stream, HEADER).packets
  {
    NoFrames();
    assert StreamKept(s, s.fifo) by { hide FrameLen; assert [] + ([] + (s.fifo + [])) == s.fifo + []; }
    RunKeeps(s, acts, s.fifo);
    var r := Run(s, acts);
    hide Run, Frames, Shape, Decode, Held;
    if !r.pod.Faulted? { DecodeFrames(r.accepted, Held(r) + (r.fifo + r.owed), HEADER); }
  }
}
