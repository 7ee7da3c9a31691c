/** The whole pipe below any client at all: one that sends packets of sizes that the pipe carries, and
    after a packet that expects a reply waits for it before it sends the next. The commands that the
    module ships are such clients. */
module AnyClient {
  import opened Bits
  import opened Framing
  import opened HostChannels
  import opened Words
  import opened Wrappers
  import opened PipeSystem
  import opened PipeSafety
  import PipeReads
  import PipeTalk
  import PipeRuns
  import T = TxPipe
  import R = RxPipe

  /** A step below the client, or a call of pipe_packet_tx or pipe_packet_rx. */
  datatype Action = Below(a: PipeSystem.Action) | Transmit(c: T.Call) | Receive

  function Step(w: World, act: Action): (r: World)
    requires Shape(w)
    ensures Shape(r)
  {
    match act
    case Below(a) => if a.Command? || a.Go? then w else PipeSystem.Step(w, a)
    case Transmit(c) => w.(tx := T.Begin(w.tx, c))
    case Receive => w.(rx := R.Step(w.rx, R.Receive))
  }

  function Run(w: World, acts: seq<Action>): (r: World)
    requires Shape(w)
    ensures Shape(r)
    decreases |acts|
  {
    if |acts| == 0 then w else Run(Step(w, acts[0]), acts[1..])
  }

  /** Packets of 1 to 511 bytes, no block of no bytes, and none before the last reply expected is there. */
  predicate Waits(w: World, acts: seq<Action>)
    requires Shape(w)
    decreases |acts|
  {
    |acts| > 0 ==>
      && (acts[0].Transmit? && w.tx.arc.Idle? ==>
            RequestOk(T.PacketOf(acts[0].c)) && CountExpected(Sent(w)) <= |w.rx.received|)
      && Waits(Step(w, acts[0]), acts[1..])
  }

  predicate SparesStep(w: World, act: Action) { act.Below? ==> Spares(w, act.a) }

  predicate SparesAll(w: World, acts: seq<Action>)
    requires Shape(w)
    decreases |acts|
  {
    |acts| > 0 ==> SparesStep(w, acts[0]) && SparesAll(Step(w, acts[0]), acts[1..])
  }

  predicate Inv(w: World) { Base(w) && PipeReads.AtMostOneOwed(w) }

  // ---- Steps

  lemma TransmitInv(w: World, c: T.Call)
    requires Inv(w) && Shape(w)
    requires w.tx.arc.Idle? ==> RequestOk(T.PacketOf(c)) && CountExpected(Sent(w)) <= |w.rx.received|
    ensures Inv(Step(w, Transmit(c)))
  {
    if w.tx.arc.Idle? {
      assert T.Legal(c) && TxOk(w.tx) by { hide T.Inv, RxOk, UpOk, HostOk, ResultsOk, FilesOk, CountExpected; }
      PipeTalk.CallTx(w.tx, c);
      ServeSnoc(w.files, Fresh(), Sent(w), T.PacketOf(c));
    }
    hide TxOk, RxOk, UpOk, HostOk, ResultsOk, FilesOk, CountExpected, T.Shape, R.Shape, T.Legal, T.PacketOf, Serve;
  }

  lemma ReceiveInv(w: World)
    requires Inv(w) && Shape(w)
    ensures Inv(Step(w, Receive))
  {
    hide TxOk, RxOk, UpOk, HostOk, ResultsOk, FilesOk, CountExpected, T.Shape, R.Shape, Base;
    BaseRx(w);
    RxStepOk(w.rx, w.form, R.Receive);
    RxSwapBase(w, R.Step(w.rx, R.Receive));
  }

  lemma BaseRx(w: World)
    requires Base(w)
    ensures RxOk(w.rx, w.form)
  {}

  lemma RxKeepsInv(w: World, r: R.Rx)
    requires Inv(w) && R.Shape(r) && RxOk(r, w.form) && r.given == w.rx.given && |r.received| >= |w.rx.received|
    ensures Inv(w.(rx := r))
  {
    RxSwapBase(w, r);
    hide Base, CountExpected;
  }

  lemma TxArcKeeps(w: World)
    requires Inv(w)
    ensures Inv(w.(tx := T.ArcStep(w.tx)))
  {
    TxArcBase(w);
    BaseShape(w);
    hide Base, CountExpected, T.ArcStep;
  }

  lemma TxPodKeeps(w: World, n: nat)
    requires Inv(w)
    ensures Inv(w.(tx := T.PodStep(w.tx, n)))
  {
    TxPodBase(w, n);
    hide Base, CountExpected, T.PodStep;
  }

  lemma RxArcKeeps(w: World)
    requires Inv(w)
    ensures Inv(w.(rx := R.ArcStep(w.rx)))
  {
    BaseRx(w);
    RxArcOk(w.rx, w.form);
    RxArcReceives(w.rx);
    hide Inv, RxOk, R.ArcStep;
    RxKeepsInv(w, R.ArcStep(w.rx));
  }

  lemma RxPodKeepsInv(w: World, n: nat)
    requires Inv(w)
    ensures Inv(w.(rx := R.PodStep(w.rx, n)))
  {
    BaseRx(w);
    RxPodOk(w.rx, w.form, n);
    RxPodKeeps(w.rx, n);
    hide Inv, RxOk, R.PodStep;
    RxKeepsInv(w, R.PodStep(w.rx, n));
  }

  lemma WriteKeeps(w: World, n: nat)
    requires Inv(w)
    ensures Inv(w.(rx := R.WriteStep(w.rx, n)))
  {
    BaseRx(w);
    RxStepOk(w.rx, w.form, R.Write(n));
    hide Inv, RxOk;
    RxKeepsInv(w, R.WriteStep(w.rx, n));
  }

  lemma ReadKeeps(w: World, n: nat)
    requires Inv(w) && Shape(w) && (w.form.AsWritten? ==> Spares(w, Read(n)))
    ensures Inv(ReadStep(w, n))
  {
    PipeReads.ReadBase(w, n);
    hide Base, ReadStep, CountExpected, Spares;
  }

  lemma StepInv(w: World, act: Action)
    requires Inv(w) && Shape(w) && (w.form.AsWritten? ==> SparesStep(w, act))
    requires act.Transmit? && w.tx.arc.Idle? ==>
      RequestOk(T.PacketOf(act.c)) && CountExpected(Sent(w)) <= |w.rx.received|
    ensures Inv(Step(w, act))
  {
    hide Inv, T.ArcStep, T.PodStep, R.ArcStep, R.PodStep, R.WriteStep, ReadStep, ClientStep, Shape, Spares, Sent,
      CountExpected, RequestOk, R.Step;
    match act
    case Transmit(c) => TransmitInv(w, c);
    case Receive => ReceiveInv(w);
    case Below(a) =>
      match a {
        case TxArc => TxArcKeeps(w);
        case TxPod(n) => TxPodKeeps(w, n);
        case RxArc => RxArcKeeps(w);
        case RxPod(n) => RxPodKeepsInv(w, n);
        case Write(n) => WriteKeeps(w, n);
        case Read(n) => ReadKeeps(w, n);
        case _ =>
      }
  }

  lemma {:induction false} RunInv(w: World, acts: seq<Action>)
    requires Inv(w) && Shape(w) && Waits(w, acts) && (w.form.AsWritten? ==> SparesAll(w, acts))
    ensures Inv(Run(w, acts))
    decreases |acts|
  {
    hide Inv, Step, Shape, SparesStep, Sent, CountExpected, RequestOk;
    if |acts| > 0 {
      StepInv(w, acts[0]);
      StepLater(w, acts[0]);
      RunInv(Step(w, acts[0]), acts[1..]);
    }
  }

  lemma StepLater(w: World, act: Action)
    requires Shape(w)
    ensures PipeRuns.Later(w, Step(w, act))
  {
    if act.Below? { PipeRuns.StepLater(w, act.a); }
    hide PipeSystem.Step, Shape, R.Step;
  }

  lemma {:induction false} RunLater(w: World, acts: seq<Action>)
    requires Shape(w)
    ensures PipeRuns.Later(w, Run(w, acts))
    decreases |acts|
  {
    hide Step, Shape;
    if |acts| > 0 {
      StepLater(w, acts[0]);
      RunLater(Step(w, acts[0]), acts[1..]);
    }
  }

  lemma {:induction false} UnsparedRunFaults(w: World, acts: seq<Action>)
    requires Inv(w) && Shape(w) && Waits(w, acts) && w.form.AsWritten? && !SparesAll(w, acts)
    ensures Run(w, acts).srv.faulted
    decreases |acts|
  {
    hide Step, Shape, SparesStep, Sent, CountExpected, RequestOk, Base, PipeReads.AtMostOneOwed;
    var r := Step(w, acts[0]);
    StepLater(w, acts[0]);
    if SparesStep(w, acts[0]) {
      StepInv(w, acts[0]);
      UnsparedRunFaults(r, acts[1..]);
    } else {
      UnsparedStep(w, acts[0]);
      RunLater(r, acts[1..]);
    }
  }

  lemma UnsparedStep(w: World, act: Action)
    requires Inv(w) && Shape(w) && w.form.AsWritten? && !SparesStep(w, act)
    ensures Step(w, act).srv.faulted
  {
    hide Base, PipeSystem.Step, Shape;
    PipeRuns.UnsparedFaults(w, act.a);
  }

  // ---- Main results

  /** For every interleaving below any client that waits: the server dispatches exactly the requests that
      were sent, in order; send_packet never finds its transmitter busy; at most one reply is owed; the
      n-th reply received is the answer to the n-th request that asks for one. With the subtraction as
      the comment asks for, in every run; as the source writes it, in exactly the runs in which no read
      leaves bytes of a second frame behind a whole one. */
  lemma AnyClientSafety(w: World, acts: seq<Action>)
    requires Initial(w) && Waits(w, acts)
    ensures PipeRuns.Safe(Run(w, acts)) <==> w.form.Intended? || SparesAll(w, acts)
  {
    InitialInv(w);
    hide Base, Run, SparesAll, Waits, Initial;
    if w.form.Intended? || SparesAll(w, acts) {
      RunInv(w, acts);
      PipeRuns.BaseSafe(Run(w, acts));
    } else {
      UnsparedRunFaults(w, acts);
    }
  }

  /** A client that has all its replies after its last request has exactly the server's answers. */
  lemma RepliesAreAnswers(w: World, acts: seq<Action>)
    requires Initial(w) && Waits(w, acts) && (w.form.Intended? || SparesAll(w, acts))
    ensures var r := Run(w, acts);
      var sent := Sent(r);
      |sent| > 0 && Expected(sent[|sent| - 1]) && |r.rx.received| == CountExpected(sent) ==>
        r.srv.dispatched == sent && r.rx.received == Serve(w.files, Fresh(), sent).replies
  {
    InitialInv(w);
    RunInv(w, acts);
    RunLater(w, acts);
    hide Run, SparesAll, Waits, Initial;
    var r := Run(w, acts);
    PipeRuns.BaseOrder(r);
    var sent := Sent(r);
    hide TxOk, RxOk, UpOk, ResultsOk, T.Shape, R.Shape, Serve, CountExpected;
    if |sent| > 0 && Expected(sent[|sent| - 1]) && |r.rx.received| == CountExpected(sent) { AllAnswered(r); }
  }

  /** The other two commands of the module: `*pi` asks for the host's information and waits for it, `*pt`
      sends 256 bytes on the channel that the host ignores. */
  lemma ShippedRequests(scratch: seq<Byte>)
    requires |scratch| == 256
    ensures RequestOk(T.PacketOf(T.Call(1, [0]))) && Expected(T.PacketOf(T.Call(1, [0])))
    ensures RequestOk(T.PacketOf(T.Call(0, scratch))) && !Expected(T.PacketOf(T.Call(0, scratch)))
  {}

  /** What `*pi` then prints: protocol version 1 in the first word, and from the second on the string,
      ended by a NUL; the rest of the 36 bytes is zero. */
  lemma InfoIsPrinted(w: World, acts: seq<Action>)
    requires Initial(w) && Waits(w, acts) && (w.form.Intended? || SparesAll(w, acts))
    ensures var r := Run(w, acts);
      var sent, got := Sent(r), r.rx.received;
      |sent| > 0 && sent[|sent| - 1] == Packet(1, [0]) && |got| == CountExpected(sent) ==>
        && |got| > 0
        && var p := got[|got| - 1];
        && p.cid == 1 && |p.payload| == 36
        && ReadLe32(p.payload, 0) == 1 && CString(p.payload[4..]) == Ascii("ArcPipePodule host server")
        && forall i :: 29 <= i < 36 ==> p.payload[i] == 0
  {
    hide Run, SparesAll, Waits, Initial, CountExpected, Serve, Sent, Expected, Shape, ReadLe32, CString, Ascii;
    InitialShape(w);
    RepliesAreAnswers(w, acts);
    var sent := Sent(Run(w, acts));
    if |sent| > 0 && sent[|sent| - 1] == Packet(1, [0]) {
      LastIsInfo(w.files, sent);
    }
  }

  lemma InitialShape(w: World)
    requires Initial(w)
    ensures Shape(w)
  {}

  lemma LastIsInfo(files: Files, ps: seq<Packet>)
    requires |ps| > 0 && ps[|ps| - 1] == Packet(1, [0])
    ensures Expected(ps[|ps| - 1])
    ensures var rs := Serve(files, Fresh(), ps).replies;
      && |rs| > 0 && InfoPacket(rs[|rs| - 1])
  {
    hide Serve, Handle, Expected, InfoPacket;
    PipeTalk.ServeLast(files, ps);
    InfoAnswer(files, Serve(files, Fresh(), ps[..|ps| - 1]).state);
  }

  predicate InfoPacket(p: Packet) {
    && p.cid == 1 && |p.payload| == 36
    && ReadLe32(p.payload, 0) == 1 && CString(p.payload[4..]) == Ascii("ArcPipePodule host server")
    && forall i :: 29 <= i < 36 ==> p.payload[i] == 0
  }

  lemma InfoAnswer(files: Files, st: State)
    requires Sound(st)
    ensures Expected(Packet(1, [0]))
    ensures var r := Handle(files, st, Packet(1, [0])).reply;
      r.Some? && InfoPacket(r.value)
  {
    InfoText();
    hide CString, Ascii, ReadLe32;
  }
}
