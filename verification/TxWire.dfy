/** What the transmit direction puts on the USB link, over all runs of the machine of TxPipe. */
module TxWire {
  import opened Bits
  import opened PoduleRegs
  import opened Framing
  import opened TxPipe

  /** The bytes of the pending packet that the FIFO has taken. */
  function Partial(s: Tx): seq<Byte>
    requires Shape(s) && LastCall(s)
  {
    if !Pending(s) then []
    else if s.ongoing then s.txBuf[..s.pos]
    else if (s.pod.Retiring? || s.pod.Clearing?) && Fits(s.arc.call) then Frame(PacketOf(s.arc.call))
    else []
  }

  /** While the link has stayed up, the FIFO has taken exactly the frames of the retired calls
      that fit the buffer, then part of the pending one. */
  predicate WireExact(s: Tx)
    requires Shape(s) && LastCall(s) && Counters(s)
  {
    s.steady ==>
      && s.connected && (s.pod.Sampled? ==> s.pod.up)
      && s.wire == Frames(Carried(s.calls[..s.retired])) + Partial(s)
  }

  lemma RetiredBound(s: Tx)
    requires Inv(s)
    ensures 0 <= s.retired <= |s.calls|
    ensures Pending(s) ==> s.calls[s.retired] == s.arc.call
  {}

  lemma WireBegin(s: Tx, c: Call)
    requires Inv(s) && WireExact(s)
    ensures Inv(Begin(s, c)) && WireExact(Begin(s, c))
  {
    hide Frames, Carried, Frame, StoreWord, Slot;
    BeginInv(s, c);
    assert Begin(s, c).calls[..s.retired] == s.calls[..s.retired];
  }

  lemma IdlePartial(s: Tx)
    requires Shape(s) && LastCall(s) && !s.ongoing && !s.pod.Retiring? && !s.pod.Clearing?
    ensures Partial(s) == []
  {}

  lemma WireArc(s: Tx)
    requires Inv(s) && WireExact(s)
    ensures Inv(ArcStep(s)) && WireExact(ArcStep(s))
  {
    ArcInv(s);
    if Pending(s) {
      ArcFrozen(s);
    } else {
      IdlePartial(s);
      hide ArcStep, Frames, Carried, Counters, OnlyHeadReady, Published, ArcProgress;
      IdlePartial(ArcStep(s));
    }
  }

  lemma Extend<T>(before: seq<T>, t: seq<T>, i: nat, j: nat)
    requires i <= j <= |t|
    ensures (before + t[..i]) + t[i..j] == before + t[..j]
  {}

  lemma ContinuePartial(s: Tx, accept: nat)
    requires Inv(s) && s.pod.Sampled? && s.ongoing
    ensures var r := Continue(s, accept);
      && Inv(r) && s.pos <= r.pos <= |s.txBuf| && r.wire == s.wire + s.txBuf[s.pos..r.pos]
      && Partial(s) == s.txBuf[..s.pos] && Partial(r) == s.txBuf[..r.pos] && !r.pod.Sampled?
  {
    ContinueInv(s, accept);
    hide Frame, StoreWord, Slot, WordFor, OnlyHeadReady, Published, ArcProgress, Counters;
  }

  lemma WireContinue(s: Tx, accept: nat)
    requires Inv(s) && WireExact(s) && s.pod.Sampled? && s.ongoing
    ensures Inv(Continue(s, accept)) && WireExact(Continue(s, accept))
  {
    ContinuePartial(s, accept);
    assert Counters(s) && LastCall(s) && Counters(Continue(s, accept)) && LastCall(Continue(s, accept)) by {
      hide Continue, Partial, PodProgress, Published, ArcProgress, OnlyHeadReady;
    }
    hide Frames, Carried, Frame, Inv, Continue, Partial, Shape, Counters, LastCall;
    Extend(Frames(Carried(s.calls[..s.retired])), s.txBuf, s.pos, Continue(s, accept).pos);
  }

  lemma WireLaunch(s: Tx, accept: nat)
    requires Inv(s) && WireExact(s) && s.pod.Copying? && s.pod.i == s.pod.len
    ensures Inv(Launch(s, s.pod.len, accept)) && WireExact(Launch(s, s.pod.len, accept))
  {
    LaunchInv(s, accept);
    hide Frames, Carried, Frame, StoreWord, Slot, WordFor;
    var before := Frames(Carried(s.calls[..s.retired]));
    assert before + [] == before;
  }

  /** A step that puts nothing on the wire and retires nothing. */
  predicate Quiet(s: Tx, r: Tx)
    requires Shape(s) && LastCall(s) && Shape(r) && LastCall(r)
  {
    && r.wire == s.wire && r.calls == s.calls && r.retired == s.retired
    && r.steady == s.steady && r.connected == s.connected
    && (r.pod.Sampled? ==> r.pod.up == s.connected)
    && Partial(r) == Partial(s)
  }

  lemma WireQuiet(s: Tx, r: Tx)
    requires Inv(s) && WireExact(s) && Inv(r) && Quiet(s, r)
    ensures WireExact(r)
  {
    hide Frames, Carried, Partial, Inv;
  }

  lemma CheckQuiet(s: Tx)
    requires Shape(s) && LastCall(s) && s.pod.Sampled? && !s.ongoing
    requires var r := CheckRegisters(s, true);
      LastCall(r) && (r.pod.Retiring? ==> !Pending(s) || !Fits(s.arc.call))
    ensures Quiet(s, CheckRegisters(s, true))
  {
    hide LoadWord, IsReady, SizeField, AddrField, CidField, Header, Frame, PacketOf, Legal;
  }

  lemma CheckDrops(s: Tx)
    requires Inv(s) && s.pod.Sampled? && !s.ongoing && Pending(s) && Fits(s.arc.call)
    ensures !CheckRegisters(s, true).pod.Retiring?
  {
    SampleInv(s);
    hide LoadWord, IsReady, SizeField, AddrField, CidField, Header, Slot, WordFor, StoreWord, PodProgress;
  }

  lemma WireCheck(s: Tx)
    requires Inv(s) && WireExact(s) && s.pod.Sampled? && s.pod.up && !s.ongoing
    ensures Inv(CheckRegisters(s, true)) && WireExact(CheckRegisters(s, true))
  {
    CheckInv(s, true);
    hide CheckRegisters, Counters, OnlyHeadReady, Published, ArcProgress, PodProgress;
    if Pending(s) && Fits(s.arc.call) { CheckDrops(s); }
    CheckQuiet(s);
    WireQuiet(s, CheckRegisters(s, true));
  }

  lemma CarriedSnoc(cs: seq<Call>, n: nat)
    requires n < |cs|
    ensures Carried(cs[..n + 1]) == Carried(cs[..n]) + (if Fits(cs[n]) then [PacketOf(cs[n])] else [])
  {
    assert cs[..n + 1][..n] == cs[..n];
  }

  lemma FramesRetired(cs: seq<Call>, n: nat)
    requires n < |cs|
    ensures Frames(Carried(cs[..n + 1])) == Frames(Carried(cs[..n]))
      + (if Fits(cs[n]) then Frame(PacketOf(cs[n])) else [])
  {
    CarriedSnoc(cs, n);
    hide Frames, Frame, Carried;
    var ps := Carried(cs[..n]);
    if Fits(cs[n]) {
      FramesSnoc(ps, PacketOf(cs[n]));
    } else {
      assert ps + [] == ps;
      assert Frames(ps) + [] == Frames(ps);
    }
  }

  /** r is s with the pending call retired. */
  predicate Retired(s: Tx, r: Tx) {
    && r.wire == s.wire && r.calls == s.calls && r.retired == s.retired + 1 && r.pod.Advancing?
    && r.connected == s.connected && r.steady == s.steady && r.ongoing == s.ongoing && r.arc == s.arc
  }

  lemma ClearEffect(s: Tx, accept: nat)
    requires Shape(s) && s.pod.Clearing?
    ensures Retired(s, PodStep(s, accept))
  {
    hide StoreWord, ClearReady;
  }

  lemma ClearWire(s: Tx, r: Tx)
    requires Inv(s) && WireExact(s) && s.pod.Clearing? && Inv(r) && Retired(s, r)
    ensures WireExact(r)
  {
    hide Frame, Frames, Carried, OnlyHeadReady, Published, ArcProgress, Counters, Shape, Legal;
    RetiredBound(s);
    FramesRetired(s.calls, s.retired);
    var before, after := Frames(Carried(s.calls[..s.retired])), Frames(Carried(s.calls[..s.retired + 1]));
    assert before + [] == before && after + [] == after;
  }

  lemma WireClear(s: Tx, accept: nat)
    requires Inv(s) && WireExact(s) && s.pod.Clearing?
    ensures Inv(PodStep(s, accept)) && WireExact(PodStep(s, accept))
  {
    hide PodStep, Counters, OnlyHeadReady, Published, ArcProgress, PodProgress;
    ClearInv(s, accept);
    ClearEffect(s, accept);
    ClearWire(s, PodStep(s, accept));
  }

  predicate Internal(p: PodTx) {
    p.Resting? || p.Retiring? || p.Advancing? || (p.Copying? && p.i < p.len)
  }

  lemma InternalQuiet(s: Tx, accept: nat)
    requires Shape(s) && LastCall(s) && LastCall(PodStep(s, accept)) && Internal(s.pod)
    requires s.pod.Advancing? || s.pod.Copying? || s.pod.Retiring? ==> !s.ongoing
    ensures Quiet(s, PodStep(s, accept))
  {
    hide LoadWord, NextSlot, Frame, PacketOf, Legal;
  }

  lemma WireOther(s: Tx, accept: nat)
    requires Inv(s) && WireExact(s) && Internal(s.pod)
    ensures Inv(PodStep(s, accept)) && WireExact(PodStep(s, accept))
  {
    PodInv(s, accept);
    hide PodStep, Counters, OnlyHeadReady, Published, ArcProgress;
    InternalQuiet(s, accept);
    WireQuiet(s, PodStep(s, accept));
  }

  lemma PodSampled(s: Tx, accept: nat)
    requires Shape(s) && s.pod.Sampled? && s.pod.up
    ensures PodStep(s, accept) == if s.ongoing then Continue(s, accept) else CheckRegisters(s, true)
  {
    hide Continue, CheckRegisters;
  }

  lemma PodLaunched(s: Tx, accept: nat)
    requires Shape(s) && s.pod.Copying? && s.pod.i == s.pod.len
    ensures PodStep(s, accept) == Launch(s, s.pod.len, accept)
  {
    hide Launch;
  }

  lemma WireSampled(s: Tx, accept: nat)
    requires Inv(s) && WireExact(s) && s.pod.Sampled? && s.pod.up
    ensures Inv(PodStep(s, accept)) && WireExact(PodStep(s, accept))
  {
    PodSampled(s, accept);
    hide PodStep, Continue, CheckRegisters;
    if s.ongoing { WireContinue(s, accept); } else { WireCheck(s); }
  }

  lemma WireCopying(s: Tx, accept: nat)
    requires Inv(s) && WireExact(s) && s.pod.Copying?
    ensures Inv(PodStep(s, accept)) && WireExact(PodStep(s, accept))
  {
    if s.pod.i == s.pod.len {
      PodLaunched(s, accept);
      hide PodStep, Launch;
      WireLaunch(s, accept);
    } else {
      hide PodStep;
      WireOther(s, accept);
    }
  }

  lemma WirePod(s: Tx, accept: nat)
    requires Inv(s) && WireExact(s)
    ensures Inv(PodStep(s, accept)) && WireExact(PodStep(s, accept))
  {
    assert s.steady && s.pod.Sampled? ==> s.pod.up;
    PodInv(s, accept);
    assert !s.steady ==> WireExact(PodStep(s, accept));
    assert Internal(s.pod) || s.pod.Sampled? || s.pod.Copying? || s.pod.Clearing?;
    hide *;
    if s.steady {
      match s.pod
      case Sampled(up) => WireSampled(s, accept);
      case Copying(len, addr, i) => WireCopying(s, accept);
      case Clearing(w) => WireClear(s, accept);
      case _ => WireOther(s, accept);
    }
  }

  lemma WireStep(s: Tx, a: Action)
    requires Inv(s) && WireExact(s)
    ensures Inv(Step(s, a)) && WireExact(Step(s, a))
  {
    StepInv(s, a);
    hide Frames, Carried, Frame, StoreWord, Slot, WordFor, OnlyHeadReady, Published, ArcProgress, PodProgress;
    match a
    case Submit(c) => WireBegin(s, c);
    case Arc => WireArc(s);
    case Pod(n) => WirePod(s, n);
    case Usb(up) =>
  }

  lemma {:induction false} WireRun(s: Tx, acts: seq<Action>)
    requires Inv(s) && WireExact(s)
    ensures Inv(Run(s, acts)) && WireExact(Run(s, acts))
    decreases |acts|
  {
    if |acts| > 0 {
      WireStep(s, acts[0]);
      WireRun(Step(s, acts[0]), acts[1..]);
    }
  }

  lemma InitialWire(s: Tx)
    requires Initial(s)
    ensures Inv(s) && WireExact(s)
  {
    InitialInv(s);
  }

  // ---- Main results for the transmit direction

  /** On a link that stays up, for every interleaving and every pattern of partial writes, what
      the FIFO has taken is a prefix of the frames of the calls that fit the buffer. */
  lemma TransmitSafety(s: Tx, acts: seq<Action>)
    requires Initial(s)
    ensures var r := Run(s, acts);
      r.steady ==> r.wire <= Frames(Carried(r.calls))
  {
    InitialWire(s);
    WireRun(s, acts);
    var r := Run(s, acts);
    if r.steady { WirePrefix(r); }
  }

  /** The calls retired are all the calls but perhaps the last, which is the pending one if any. */
  lemma RetiredParts(r: Tx)
    requires Inv(r)
    ensures 0 <= r.retired <= |r.calls|
    ensures Pending(r) ==> |r.calls| == r.retired + 1 && r.calls[r.retired] == r.arc.call
    ensures !Pending(r) ==> Partial(r) == [] && |r.calls| <= r.retired + 1
  {
    hide Frame, StoreWord, WordFor, Slot, OnlyHeadReady, Published, ArcProgress, PodProgress;
  }

  lemma WirePrefix(r: Tx)
    requires Inv(r) && WireExact(r) && r.steady
    ensures r.wire <= Frames(Carried(r.calls))
  {
    RetiredParts(r);
    if Pending(r) { PartialOfFrame(r); }
    hide Frames, Carried, Frame, Inv, Partial, Shape, Pending, Fits;
    var n := r.retired;
    if n < |r.calls| {
      assert r.calls == r.calls[..n + 1];
      FramesRetired(r.calls, n);
    } else {
      assert r.calls[..n] == r.calls;
    }
  }

  lemma PartialOfFrame(r: Tx)
    requires Inv(r) && Pending(r)
    ensures Partial(r) <= if Fits(r.arc.call) then Frame(PacketOf(r.arc.call)) else []
  {
    hide Frame, StoreWord, WordFor, Slot;
    if r.ongoing { assert r.txBuf[..r.total][..r.pos] == r.txBuf[..r.pos]; }
  }

  function Packets(cs: seq<Call>): seq<Packet> {
    seq(|cs|, i requires 0 <= i < |cs| => PacketOf(cs[i]))
  }

  predicate AllFit(cs: seq<Call>) { forall i :: 0 <= i < |cs| ==> Fits(cs[i]) }

  predicate AllLegal(cs: seq<Call>) { forall i :: 0 <= i < |cs| ==> Legal(cs[i]) }

  lemma {:induction false} CarriedAll(cs: seq<Call>)
    ensures |Carried(cs)| <= |cs|
    ensures |Carried(cs)| == |cs| <==> AllFit(cs)
    ensures AllFit(cs) ==> Carried(cs) == Packets(cs)
    ensures AllSized(Carried(cs))
  {
    if |cs| > 0 {
      var n := |cs| - 1;
      CarriedAll(cs[..n]);
      assert AllFit(cs) <==> AllFit(cs[..n]) && Fits(cs[n]);
    }
  }

  lemma {:induction false} CarriedNonEmpty(cs: seq<Call>)
    requires AllLegal(cs)
    ensures NoneEmpty(Carried(cs))
  {
    if |cs| > 0 { CarriedNonEmpty(cs[..|cs| - 1]); }
  }

  /** The documented packet sizes are 1 to 512. Once the Archimedes is idle on a link that stayed
      up, every packet it sent is on the wire if and only if none of them was 512 bytes long. */
  lemma CarriesAllUnlessFull(s: Tx, acts: seq<Action>)
    requires Initial(s)
    ensures var r := Run(s, acts);
      r.steady && r.arc.Idle? && AllLegal(r.calls) ==>
        (r.wire == Frames(Packets(r.calls)) <==> forall i :: 0 <= i < |r.calls| ==> |r.calls[i].data| != BUFFER_SIZE)
  {
    InitialWire(s);
    WireRun(s, acts);
    var r := Run(s, acts);
    if r.steady && r.arc.Idle? && AllLegal(r.calls) {
      assert r.calls[..r.retired] == r.calls && Partial(r) == [];
      assert r.wire == Frames(Carried(r.calls));
      AllOnWire(r.calls);
    }
  }

  lemma AllOnWire(cs: seq<Call>)
    requires AllLegal(cs)
    ensures Frames(Carried(cs)) == Frames(Packets(cs)) <==> AllFit(cs)
    ensures AllFit(cs) <==> forall i :: 0 <= i < |cs| ==> |cs[i].data| != BUFFER_SIZE
  {
    CarriedAll(cs);
    if Frames(Carried(cs)) == Frames(Packets(cs)) {
      FramesOfPrefixOnly(Carried(cs), Packets(cs));
      FramesOfPrefixOnly(Packets(cs), Carried(cs));
    }
  }
}
