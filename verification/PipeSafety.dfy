/** What every run of the whole pipe keeps: requests and replies alternate, nothing is lost or
    garbled on the way, and a copied file is the remote file. */
module PipeSafety {
  import opened Bits
  import opened Framing
  import opened Shuffle
  import opened HostChannels
  import opened PoduleRegs
  import opened Words
  import opened PipeSystem
  import opened Wrappers
  import CopyClient
  import Server
  import T = TxPipe
  import R = RxPipe
  import W = TxWire

  // ---- The invariant, part by part

  /** What any client may send: a packet that the transmit direction carries, and no request for a block of
      no bytes. */
  predicate RequestOk(p: Packet) {
    && p.cid < 0x80 && 1 <= |p.payload| < BUFFER_SIZE
    && (p.cid == CID_RAWFILE && p.payload[0] == RAWFILE_READ_BLOCK && |p.payload| >= 12 ==>
          ReadLe32(p.payload, 8) >= 1)
  }

  predicate RequestsOk(ps: seq<Packet>) { forall i :: 0 <= i < |ps| ==> RequestOk(ps[i]) }

  predicate TxOk(tx: T.Tx) {
    T.Inv(tx) && W.WireExact(tx) && tx.steady && RequestsOk(W.Packets(tx.calls))
  }

  predicate RxOk(rx: R.Rx, form: Form) { R.Inv(rx) && R.Solo(rx) && rx.form == form }

  /** The server has decoded exactly the part of the wire it has read. */
  predicate UpOk(wire: seq<Byte>, srv: Srv) {
    && srv.read <= |wire| && !srv.faulted && |srv.held| <= Server.BUFFER_SIZE
    && Decode(wire[..srv.read], Server.NEED) == Decoded(srv.dispatched, srv.held)
  }

  /** The server's state and the packets it has given are those of serving what was dispatched. */
  predicate HostOk(files: Files, srv: Srv, given: seq<Packet>) {
    && !srv.clobbered && Sound(srv.host)
    && Serve(files, Fresh(), srv.dispatched) == Served(srv.host, given)
  }

  /** Between calls, every request that expects a reply has had it; inside one, exactly the last
      one has not, unless pipe_packet_rx has just returned. */
  predicate Disciplined(expected: nat, received: nat, phase: Phase, txIdle: bool, rxIdle: bool) {
    match phase
    case Prompt => expected == received && txIdle && rxIdle
    case Sending(_) => expected == received + 1 && rxIdle
    case Awaiting(_) => txIdle && expected == if rxIdle then received else received + 1
    case Closing(_) => expected == received && rxIdle
  }

  predicate ResultOk(files: Files, r: Result) {
    match r
    case Copied(name, local, load, exec, attributes) =>
      && name in files.named && files.named[name] == RemoteFile(local, load, exec)
      && attributes == if load >= 0xfff0_0000 then SetType((load / 0x100) % 0x1000) else SetWords(load, exec)
    case NotOpened(name) => name !in files.named
    case LocalError(_) => true
  }

  /** The request p, made when the server's state is st, asks for what the client is after. */
  predicate TalkOk(files: Files, st: State, p: Packet, k: Talk) {
    && RequestOk(p) && p.cid == CID_RAWFILE
    && match k
       case Opening(name) =>
         p.payload[0] == RAWFILE_INIT_READ && CString(p.payload[1..]) == name && Copyable(files, name)
       case Reading(name, info, pos, size, local) =>
         && name in files.named && Copyable(files, name)
         && var f := files.named[name];
         && st.current == Some(f.content)
         && info.len == |f.content| && info.load == f.load && info.exec == f.exec
         && pos < |f.content| && pos % CopyClient.BLOCK == 0 && local == f.content[..pos]
         && size == CopyClient.BlockSize(info.len, pos)
         && p.payload[0] == RAWFILE_READ_BLOCK && |p.payload| >= 12
         && ReadLe32(p.payload, 4) == pos && ReadLe32(p.payload, 8) == size
  }

  /** Between commands no file is left open on the host, once it has served what was sent. */
  predicate Conversation(files: Files, ps: seq<Packet>, phase: Phase) {
    match phase
    case Prompt => Serve(files, Fresh(), ps).state.current.None?
    case Closing(r) => ResultOk(files, r) && Serve(files, Fresh(), ps).state.current.None?
    case Sending(k) => |ps| > 0 && TalkOk(files, Serve(files, Fresh(), ps[..|ps| - 1]).state, ps[|ps| - 1], k)
    case Awaiting(k) => |ps| > 0 && TalkOk(files, Serve(files, Fresh(), ps[..|ps| - 1]).state, ps[|ps| - 1], k)
  }

  predicate ResultsOk(files: Files, rs: seq<Result>) { forall i :: 0 <= i < |rs| ==> ResultOk(files, rs[i]) }

  function Sent(w: World): seq<Packet> { W.Packets(w.tx.calls) }

  /** The part that does not mention where the client is. */
  predicate Base(w: World) {
    && Shape(w) && FilesOk(w.files)
    && TxOk(w.tx) && RxOk(w.rx, w.form) && UpOk(w.tx.wire, w.srv) && HostOk(w.files, w.srv, w.rx.given)
    && ResultsOk(w.files, w.cli.results)
  }

  predicate Inv(w: World) {
    && Base(w)
    && Disciplined(CountExpected(Sent(w)), |w.rx.received|, w.cli.phase, w.tx.arc.Idle?, w.rx.arc.Idle?)
    && Conversation(w.files, Sent(w), w.cli.phase)
  }

  lemma BaseShape(w: World)
    requires Base(w)
    ensures Shape(w)
  {}

  lemma InitialInv(w: World)
    requires Initial(w)
    ensures Inv(w)
  {
    W.InitialWire(w.tx);
    R.InitialInv(w.rx);
    hide T.Inv, R.Inv, W.WireExact;
  }

  // ---- The wire and what the server has seen of it

  lemma RequestsCarried(tx: T.Tx)
    requires TxOk(tx)
    ensures tx.wire <= Frames(W.Packets(tx.calls))
    ensures AllSized(W.Packets(tx.calls)) && NoneEmpty(W.Packets(tx.calls))
  {
    W.WirePrefix(tx);
    hide T.Inv, W.WireExact, Frames, RequestOk;
    forall i | 0 <= i < |tx.calls|
      ensures T.Fits(tx.calls[i]) && Sized(W.Packets(tx.calls)[i]) && |W.Packets(tx.calls)[i].payload| >= 1
    {
      RequestSize(W.Packets(tx.calls)[i]);
    }
    W.CarriedAll(tx.calls);
  }

  lemma RequestSize(p: Packet)
    requires RequestOk(p)
    ensures 1 <= |p.payload| < BUFFER_SIZE
  {}

  lemma PrefixOf<X>(a: seq<X>, n: nat, b: seq<X>)
    requires n <= |a| && a <= b
    ensures a[..n] <= b && a[..n] == b[..n]
  {}

  /** What the server has dispatched is a prefix of what the client has sent. */
  lemma DispatchedPrefix(tx: T.Tx, srv: Srv)
    requires TxOk(tx) && UpOk(tx.wire, srv)
    ensures srv.dispatched <= W.Packets(tx.calls)
  {
    RequestsCarried(tx);
    hide TxOk, Frames, Decode, W.Packets;
    PrefixOf(tx.wire, srv.read, Frames(W.Packets(tx.calls)));
    DecodePrefix(tx.wire[..srv.read], W.Packets(tx.calls), Server.NEED);
  }

  /** Once the last request has had its reply, the server has dispatched all of them, and the
      replies received are all it has given. */
  lemma AllAnswered(w: World)
    requires TxOk(w.tx) && UpOk(w.tx.wire, w.srv) && HostOk(w.files, w.srv, w.rx.given)
    requires w.rx.received <= w.rx.given && CountExpected(Sent(w)) <= |w.rx.received|
    requires |w.tx.calls| > 0 && Expected(Sent(w)[|w.tx.calls| - 1])
    ensures w.srv.dispatched == Sent(w) && w.rx.received == w.rx.given
    ensures |w.rx.given| == CountExpected(Sent(w))
  {
    DispatchedPrefix(w.tx, w.srv);
    CountPrefix(w.srv.dispatched, Sent(w));
    hide TxOk, UpOk, CountExpected;
  }

  // ---- Steps of the two transports

  lemma UpGrows(before: seq<Byte>, after: seq<Byte>, srv: Srv)
    requires UpOk(before, srv) && before <= after
    ensures UpOk(after, srv)
  {
    hide Decode;
    PrefixOf(before, srv.read, after);
  }

  lemma TxArcBase(w: World)
    requires Base(w)
    ensures Base(w.(tx := T.ArcStep(w.tx)))
    ensures w.tx.arc.Idle? ==> T.ArcStep(w.tx) == w.tx
  {
    W.WireArc(w.tx);
    hide T.Inv, W.WireExact, T.ArcStep, RxOk, UpOk, HostOk, ResultsOk, FilesOk, RequestsOk, CountExpected;
    if w.tx.arc.Idle? { ArcIdle(w.tx); }
  }

  lemma TxArcInv(w: World)
    requires Inv(w)
    ensures Inv(w.(tx := T.ArcStep(w.tx)))
  {
    TxArcBase(w);
    hide Base, Conversation, CountExpected, T.ArcStep;
  }

  lemma ArcIdle(tx: T.Tx)
    requires T.Shape(tx) && tx.arc.Idle?
    ensures T.ArcStep(tx) == tx
  {}

  lemma TxPodBase(w: World, n: nat)
    requires Base(w)
    ensures Base(w.(tx := T.PodStep(w.tx, n)))
    ensures T.PodStep(w.tx, n).arc == w.tx.arc && T.PodStep(w.tx, n).calls == w.tx.calls
  {
    W.WirePod(w.tx, n);
    T.PodWire(w.tx, n);
    T.PodFrozen(w.tx, n);
    hide T.Inv, W.WireExact, T.PodStep, RxOk, UpOk, HostOk, ResultsOk, FilesOk, RequestsOk, CountExpected;
    UpGrows(w.tx.wire, T.PodStep(w.tx, n).wire, w.srv);
  }

  lemma TxPodInv(w: World, n: nat)
    requires Inv(w)
    ensures Inv(w.(tx := T.PodStep(w.tx, n)))
  {
    TxPodBase(w, n);
    hide Base, Conversation, CountExpected, Disciplined, T.PodStep;
  }

  lemma RxArcReceives(rx: R.Rx)
    requires R.Shape(rx)
    ensures var r := R.ArcStep(rx);
      && (rx.arc.Idle? ==> r == rx)
      && |r.received| == |rx.received| + (if !rx.arc.Idle? && r.arc.Idle? then 1 else 0)
      && r.given == rx.given && r.owed == rx.owed && r.form == rx.form
  {
    hide R.Get, R.Fetch;
  }

  lemma RxSwapBase(w: World, r: R.Rx)
    requires Base(w) && R.Shape(r) && RxOk(r, w.form) && r.given == w.rx.given
    ensures Base(w.(rx := r))
  {
    hide TxOk, RxOk, UpOk, HostOk, ResultsOk, FilesOk, R.Shape, T.Shape;
  }

  lemma RxSwap(w: World, r: R.Rx)
    requires Inv(w) && R.Shape(r) && RxOk(r, w.form) && r.given == w.rx.given
    requires Disciplined(CountExpected(Sent(w)), |r.received|, w.cli.phase, w.tx.arc.Idle?, r.arc.Idle?)
    ensures Inv(w.(rx := r))
  {
    RxSwapBase(w, r);
    hide Base, Conversation, CountExpected, Disciplined;
  }

  lemma RxStepOk(rx: R.Rx, form: Form, a: R.Action)
    requires RxOk(rx, form) && !a.Send?
    ensures RxOk(R.Step(rx, a), form)
  {
    R.StepInv(rx, a);
    R.SoloStep(rx, a);
    RxStepForm(rx, a);
    hide R.Inv, R.Solo, R.Step;
  }

  lemma RxStepForm(rx: R.Rx, a: R.Action)
    requires R.Shape(rx)
    ensures R.Step(rx, a).form == rx.form
  {
    R.StepFault(rx, a);
  }

  lemma RxArcOk(rx: R.Rx, form: Form)
    requires RxOk(rx, form)
    ensures RxOk(R.ArcStep(rx), form)
  {
    RxStepOk(rx, form, R.Arc);
    hide RxOk, R.ArcStep;
  }

  lemma RxArcInv(w: World)
    requires Inv(w)
    ensures Inv(w.(rx := R.ArcStep(w.rx)))
  {
    RxArcOk(w.rx, w.form);
    RxArcReceives(w.rx);
    hide RxOk, R.ArcStep, TxOk, UpOk, HostOk, Conversation, ResultsOk, FilesOk, CountExpected, R.Shape, T.Shape;
    RxSwap(w, R.ArcStep(w.rx));
  }

  lemma RxPodKeeps(rx: R.Rx, n: nat)
    requires R.Shape(rx)
    ensures var r := R.PodStep(rx, n);
      r.received == rx.received && r.given == rx.given && r.arc == rx.arc
  {
    hide R.FrontLen, R.FrontPacket, R.PublishedWord;
  }

  lemma RxPodOk(rx: R.Rx, form: Form, n: nat)
    requires RxOk(rx, form)
    ensures RxOk(R.PodStep(rx, n), form)
  {
    RxStepOk(rx, form, R.Pod(n));
    hide RxOk, R.PodStep;
  }

  lemma RxPodInv(w: World, n: nat)
    requires Inv(w)
    ensures Inv(w.(rx := R.PodStep(w.rx, n)))
  {
    RxPodOk(w.rx, w.form, n);
    RxPodKeeps(w.rx, n);
    hide R.Inv, R.Solo, R.PodStep, TxOk, UpOk, HostOk, Conversation, ResultsOk, FilesOk, CountExpected, Disciplined;
    RxSwap(w, R.PodStep(w.rx, n));
  }

  lemma WriteInv(w: World, n: nat)
    requires Inv(w)
    ensures Inv(w.(rx := R.WriteStep(w.rx, n)))
  {
    RxStepOk(w.rx, w.form, R.Write(n));
    hide R.Inv, R.Solo, TxOk, UpOk, HostOk, Conversation, ResultsOk, FilesOk, CountExpected, Disciplined;
    RxSwap(w, R.WriteStep(w.rx, n));
  }
}
