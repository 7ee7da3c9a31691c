/** Main results for runs of the whole pipe. */
module PipeRuns {
  import opened Framing
  import opened HostChannels
  import opened Words
  import opened PipeSystem
  import opened PipeSafety
  import PipeReads
  import PipeTalk
  import CopyClient
  import Server
  import T = TxPipe
  import R = RxPipe
  import W = TxWire

  /** Every step keeps the invariant, unless it is a read that takes the branch with the excess
      subtraction as the source writes it. */
  lemma StepInv(w: World, a: Action)
    requires Inv(w) && (a.Command? ==> Copyable(w.files, a.name)) && (w.form.AsWritten? ==> Spares(w, a))
    ensures Inv(Step(w, a))
  {
    hide Inv, T.ArcStep, T.PodStep, R.ArcStep, R.PodStep, R.WriteStep, ReadStep, ClientStep, NameOk, OpenRequest,
      Copyable, Spares;
    match a
    case TxArc => TxArcInv(w);
    case TxPod(n) => TxPodInv(w, n);
    case RxArc => RxArcInv(w);
    case RxPod(n) => RxPodInv(w, n);
    case Write(n) => WriteInv(w, n);
    case Read(n) => PipeReads.ReadInv(w, n);
    case Command(name) => if w.cli.phase.Prompt? && NameOk(name) { PipeTalk.OpenAsks(w, name); }
    case Go(fails) => PipeTalk.ClientInv(w, fails);
  }

  lemma {:induction false} DispatchAllFrame(w: World, ps: seq<Packet>)
    requires Shape(w)
    ensures var r := DispatchAll(w, ps);
      r.files == w.files && r.form == w.form && r.tx == w.tx && r.cli == w.cli && r.srv.faulted == w.srv.faulted
    decreases |ps|
  {
    hide Handle, R.SendStep, Shape;
    if |ps| > 0 { DispatchAllFrame(Dispatch(w, ps[0]), ps[1..]); }
  }

  /** Commands are only ever added, the files and the form stay, and so does a fault. */
  predicate Later(w: World, r: World) {
    && r.form == w.form && r.files == w.files && w.cli.commands <= r.cli.commands
    && (w.srv.faulted ==> r.srv.faulted)
  }

  lemma ReadKeepsClient(w: World, n: nat)
    requires Shape(w)
    ensures Step(w, Read(n)).cli == w.cli
  {
    hide DispatchAll, Server.Reassemble;
    if !w.srv.faulted && Readable(w) {
      var a := Server.Reassemble(w.form, Gathered(w, n));
      DispatchAllFrame(w.(srv := w.srv.(read := w.srv.read + Taken(w, n), held := a.rest, faulted := a.faulted)),
        a.packets);
    }
  }

  lemma ReadLater(w: World, n: nat)
    requires Shape(w)
    ensures Later(w, ReadStep(w, n))
  {
    hide DispatchAll, Server.Reassemble;
    if !w.srv.faulted && Readable(w) {
      var a := Server.Reassemble(w.form, Gathered(w, n));
      DispatchAllFrame(w.(srv := w.srv.(read := w.srv.read + Taken(w, n), held := a.rest, faulted := a.faulted)),
        a.packets);
    }
  }

  lemma ClientLater(w: World, fails: bool)
    requires Shape(w)
    ensures Later(w, ClientStep(w, fails))
  {
    hide BlockRequest, Overlay, ReadLe32, T.Begin;
  }

  lemma StepLater(w: World, a: Action)
    requires Shape(w)
    ensures Later(w, Step(w, a))
  {
    hide T.ArcStep, T.PodStep, R.ArcStep, R.PodStep, R.WriteStep, ReadStep, ClientStep, NameOk, OpenRequest, Shape;
    match a
    case Read(n) => ReadLater(w, n);
    case Go(fails) => ClientLater(w, fails);
    case _ =>
  }

  lemma {:induction false} RunLater(w: World, acts: seq<Action>)
    requires Shape(w)
    ensures Later(w, Run(w, acts))
    decreases |acts|
  {
    hide Step, Shape;
    if |acts| > 0 {
      StepLater(w, acts[0]);
      RunLater(Step(w, acts[0]), acts[1..]);
    }
  }

  lemma {:induction false} RunInv(w: World, acts: seq<Action>)
    requires Shape(w) && Inv(w) && AllCopyable(w.files, acts) && (w.form.AsWritten? ==> Spared(w, acts))
    ensures Inv(Run(w, acts))
    decreases |acts|
  {
    hide Inv, Step, Shape, Spares, Copyable;
    if |acts| > 0 {
      StepLater(w, acts[0]);
      StepInv(w, acts[0]);
      RunInv(Step(w, acts[0]), acts[1..]);
    }
  }

  lemma {:induction false} ServePrefix(fs: Files, ps: seq<Packet>, qs: seq<Packet>)
    requires ps <= qs
    ensures Serve(fs, Fresh(), ps).replies <= Serve(fs, Fresh(), qs).replies
    decreases |qs|
  {
    hide Handle;
    if |ps| < |qs| {
      ServePrefix(fs, ps, qs[..|qs| - 1]);
    } else {
      assert ps == qs;
    }
  }

  /** What a maintainer may rely on after any run. */
  predicate Safe(w: World) {
    && !w.srv.faulted && !w.srv.clobbered && !w.rx.pod.Faulted?
    && w.srv.dispatched <= Sent(w)
    && w.rx.received <= w.rx.given <= Serve(w.files, Fresh(), Sent(w)).replies
    && CountExpected(Sent(w)) <= |w.rx.received| + 1
    && ResultsOk(w.files, w.cli.results)
  }

  lemma BaseSafe(w: World)
    requires Base(w) && PipeReads.AtMostOneOwed(w)
    ensures Safe(w)
  {
    DispatchedPrefix(w.tx, w.srv);
    ServePrefix(w.files, w.srv.dispatched, Sent(w));
    BaseOrder(w);
    hide TxOk, FilesOk, Serve, CountExpected, ResultsOk, R.Inv, R.Shape, T.Shape, Sent;
  }

  lemma BaseOrder(w: World)
    requires Base(w)
    ensures w.rx.received <= w.rx.given
  {
    hide TxOk, FilesOk, UpOk, HostOk, ResultsOk, R.Solo, T.Shape, R.Conserved, R.Counters, R.Flight, R.PodProgress;
  }

  lemma InvBase(w: World)
    requires Inv(w)
    ensures Base(w)
  {}

  lemma InvSafe(w: World)
    requires Inv(w)
    ensures Safe(w)
  {
    PipeReads.OneOwed(w);
    hide Base, Disciplined, Conversation, CountExpected, Safe, Sent;
    BaseSafe(w);
  }

  // ---- The excess subtraction as written

  /** A read by the server runs into the subtraction exactly when it leaves bytes of a second
      frame behind a whole one. */
  lemma ReadFaultExact(w: World, n: nat)
    requires Shape(w) && !w.srv.faulted && Readable(w)
    ensures ReadStep(w, n).srv.faulted <==> w.form.AsWritten? && Server.Surplus(Gathered(w, n))
  {
    hide DispatchAll, Server.Surplus;
    var a := Server.Reassemble(w.form, Gathered(w, n));
    DispatchAllFrame(w.(srv := w.srv.(read := w.srv.read + Taken(w, n), held := a.rest, faulted := a.faulted)),
      a.packets);
  }

  /** A Close read together with the next command's Open is such a read. */
  lemma CloseWithOpenFaults(w: World, close: Packet, open: Packet, n: nat)
    requires Shape(w) && !w.srv.faulted && w.form.AsWritten? && w.srv.held == [] && w.srv.read <= |w.tx.wire|
    requires Sized(close) && |close.payload| >= 1 && w.tx.wire[w.srv.read..] == Frames([close, open])
    requires |Frames([close, open])| <= n && |Frames([close, open])| <= Server.BUFFER_SIZE
    ensures ReadStep(w, n).srv.faulted
  {
    hide ReadStep, Shape, Server.Surplus, Frames;
    var fs := Frames([close, open]);
    SurplusOfTwo(close, open);
    assert w.srv.held + w.tx.wire[w.srv.read..] == fs;
    assert w.tx.wire[w.srv.read..|w.tx.wire|] == w.tx.wire[w.srv.read..];
    ReadFaultExact(w, n);
  }

  lemma SurplusOfTwo(p: Packet, q: Packet)
    requires Sized(p) && |p.payload| >= 1
    ensures Server.Surplus(Frames([p, q]))
  {
    assert [p, q][1..] == [q];
    FrameHeader(p, Frames([q]));
    R.FrameNonEmpty(q);
    R.FramesEmpty([q]);
    hide Frame, FrameLen;
  }

  lemma UnsparedFaults(w: World, a: Action)
    requires Base(w) && w.form.AsWritten? && !Spares(w, a)
    ensures Shape(w) && Step(w, a).srv.faulted
  {
    assert Shape(w) && !w.srv.faulted by { hide TxOk, RxOk, HostOk, ResultsOk, T.Shape, R.Shape; }
    hide Base, ReadStep, Server.Surplus, Gathered, Shape;
    ReadFaultExact(w, a.n);
  }

  lemma {:induction false} UnsparedRunFaults(w: World, acts: seq<Action>)
    requires Shape(w) && Inv(w) && AllCopyable(w.files, acts) && w.form.AsWritten? && !Spared(w, acts)
    ensures Run(w, acts).srv.faulted
    decreases |acts|
  {
    hide Inv, Step, Shape, Spares, Copyable;
    var r := Step(w, acts[0]);
    StepLater(w, acts[0]);
    if Spares(w, acts[0]) {
      StepInv(w, acts[0]);
      UnsparedRunFaults(r, acts[1..]);
    } else {
      InvBase(w);
      UnsparedFaults(w, acts[0]);
      RunLater(r, acts[1..]);
    }
  }

  // ---- Main results

  /** For every interleaving of the bus accesses of both machines, every cut of the USB stream in
      both directions, every chopping of the server's reads and every sequence of commands for
      files that the copy loop can handle: the server dispatches exactly the requests that were
      sent, in order; send_packet never finds its transmitter busy; at most one request is
      unanswered; the n-th reply received is the answer to the n-th request that asks for one; and
      every copy that the client reports done has the remote file's contents and attributes, every
      failed open is of a file that is not there. With the subtraction as the comment asks for, this
      is so of every run; as the source writes it, of exactly the runs in which no read leaves
      bytes of a second frame behind a whole one. */
  lemma WholePipeSafety(w: World, acts: seq<Action>)
    requires Initial(w) && AllCopyable(w.files, acts)
    ensures Safe(Run(w, acts)) <==> w.form.Intended? || Spared(w, acts)
  {
    InitialInv(w);
    hide Inv, Run, Spared, Initial, AllCopyable;
    if w.form.Intended? || Spared(w, acts) {
      RunInv(w, acts);
      InvSafe(Run(w, acts));
    } else {
      UnsparedRunFaults(w, acts);
    }
  }

  /** The case of one copy, read off the result list. */
  lemma CopiedFileIsRemoteFile(w: World, acts: seq<Action>, i: nat)
    requires Initial(w) && AllCopyable(w.files, acts)
    requires w.form.Intended? || Spared(w, acts)
    ensures var rs := Run(w, acts).cli.results;
      i < |rs| && rs[i].Copied? ==>
        && rs[i].name in w.files.named && w.files.named[rs[i].name] == RemoteFile(rs[i].local, rs[i].load, rs[i].exec)
        && rs[i].attributes ==
             if rs[i].load >= 0xfff0_0000 then SetType((rs[i].load / 0x100) % 0x1000)
             else SetWords(rs[i].load, rs[i].exec)
  {
    WholePipeSafety(w, acts);
    RunLater(w, acts);
    hide Run, Initial, Spared;
  }

  /** Between commands, once it has served what was sent, the server has no file open. */
  lemma HostFileClosed(w: World, acts: seq<Action>)
    requires Initial(w) && AllCopyable(w.files, acts) && (w.form.Intended? || Spared(w, acts))
    ensures var r := Run(w, acts);
      r.cli.phase.Prompt? && r.srv.dispatched == Sent(r) ==> r.srv.host.current.None?
  {
    InitialInv(w);
    RunInv(w, acts);
    hide Run, Initial, Spared, TxOk, RxOk, UpOk, ResultsOk, Disciplined, T.Shape, R.Shape, Serve;
  }

  // ---- A single command

  /** At most one command, and at most one request that the server has not dispatched. */
  predicate OneUnderWay(w: World) {
    && w.cli.commands <= 1 && |w.tx.calls| <= |w.srv.dispatched| + 1
    && (w.cli.commands == 0 ==> |w.tx.calls| == 0)
  }

  lemma OneSpares(w: World, a: Action)
    requires Inv(w) && OneUnderWay(w)
    ensures Spares(w, a)
  {
    hide T.Inv, R.Inv, W.WireExact, HostOk, Conversation, ResultsOk, Disciplined, T.Shape, R.Shape, Decode,
      Server.Surplus;
    if a.Read? && Readable(w) { PipeReads.NoSurplus(w.tx, w.srv, Taken(w, a.n)); }
  }

  lemma {:induction false} DispatchAllGrows(w: World, ps: seq<Packet>)
    requires Shape(w)
    ensures |DispatchAll(w, ps).srv.dispatched| == |w.srv.dispatched| + |ps|
    decreases |ps|
  {
    hide Handle, R.SendStep, Shape;
    if |ps| > 0 { DispatchAllGrows(Dispatch(w, ps[0]), ps[1..]); }
  }

  lemma ReadOne(w: World, n: nat)
    requires Shape(w) && OneUnderWay(w)
    ensures OneUnderWay(ReadStep(w, n))
  {
    hide DispatchAll, Server.Reassemble;
    if !w.srv.faulted && Readable(w) {
      var a := Server.Reassemble(w.form, Gathered(w, n));
      var t := w.(srv := w.srv.(read := w.srv.read + Taken(w, n), held := a.rest, faulted := a.faulted));
      DispatchAllFrame(t, a.packets);
      DispatchAllGrows(t, a.packets);
    }
  }

  /** A client that has taken a reply makes at most one call, and the server is up to date then. */
  lemma ClientOne(w: World, fails: bool)
    requires Inv(w) && OneUnderWay(w)
    ensures OneUnderWay(ClientStep(w, fails))
  {
    if w.cli.phase.Awaiting? && w.rx.arc.Idle? && |w.rx.received| > 0 {
      PipeTalk.LastReply(w, w.cli.phase.talk);
      assert |w.srv.dispatched| == |w.tx.calls|;
      hide Inv;
      RepliedOne(w, w.cli.phase.talk, fails);
    } else {
      hide Inv, Replied;
    }
  }

  lemma RepliedOne(w: World, k: Talk, fails: bool)
    requires Shape(w) && |w.rx.received| > 0
    ensures var r := Replied(w, k, fails);
      && r.cli.commands == w.cli.commands && r.srv == w.srv
      && |w.tx.calls| <= |r.tx.calls| <= |w.tx.calls| + 1
  {
    hide Overlay, BlockRequest, ReadLe32, CopyClient.BlockSize, CopyClient.WriteAt, T.Shape, R.Shape;
  }

  lemma StepOne(w: World, a: Action)
    requires Inv(w) && OneUnderWay(w) && Step(w, a).cli.commands <= 1
    ensures OneUnderWay(Step(w, a))
  {
    assert Shape(w) by { hide T.Shape, R.Shape, TxOk, RxOk; }
    hide Inv, ReadStep, ClientStep, Shape, OpenRequest, T.PodStep, R.ArcStep, R.PodStep;
    match a
    case Read(n) => ReadOne(w, n);
    case Go(fails) => ClientOne(w, fails);
    case _ =>
  }

  lemma {:induction false} OneRunSpared(w: World, acts: seq<Action>)
    requires Shape(w) && Inv(w) && OneUnderWay(w) && AllCopyable(w.files, acts) && Run(w, acts).cli.commands <= 1
    ensures Spared(w, acts)
    decreases |acts|
  {
    hide Inv, Step, Shape, Spares, Copyable, OneUnderWay;
    if |acts| > 0 {
      var r := Step(w, acts[0]);
      StepLater(w, acts[0]);
      RunLater(r, acts[1..]);
      OneSpares(w, acts[0]);
      StepInv(w, acts[0]);
      StepOne(w, acts[0]);
      OneRunSpared(r, acts[1..]);
    }
  }

  /** A single copy is safe with the source as it is, however the link cuts the stream. */
  lemma SingleCommandSafe(w: World, acts: seq<Action>)
    requires Initial(w) && AllCopyable(w.files, acts) && Run(w, acts).cli.commands <= 1
    ensures Spared(w, acts) && Safe(Run(w, acts))
  {
    InitialInv(w);
    assert OneUnderWay(w);
    WholePipeSafety(w, acts);
    hide Inv, Run, Spared, Initial;
    OneRunSpared(w, acts);
  }

  // ---- The transmit direction from end to end, whoever calls it

  /** For every interleaving of the bus accesses, every pattern of partial USB writes on a link that
      stays up, and however the server's reads cut the stream: the packets the reassembler has
      found in the first n bytes are the first of those sent that fit the buffer, byte for byte,
      and its buffer has room for the next read. */
  lemma UplinkSafety(s: T.Tx, acts: seq<T.Action>, n: nat)
    requires T.Initial(s)
    ensures var r := T.Run(s, acts);
      r.steady && n <= |r.wire| ==>
        var d := Decode(r.wire[..n], Server.NEED);
        d.packets <= T.Carried(r.calls) && |d.rest| < 4096
  {
    W.InitialWire(s);
    W.WireRun(s, acts);
    var r := T.Run(s, acts);
    CallsLegal(s, acts);
    hide T.Run, W.WireExact, T.Inv, Decode, T.Carried, Frames;
    if r.steady && n <= |r.wire| {
      W.WirePrefix(r);
      W.CarriedAll(r.calls);
      W.CarriedNonEmpty(r.calls);
      CarriedShort(r.calls);
      PrefixOf(r.wire, n, Frames(T.Carried(r.calls)));
      Server.ReassemblySafety(r.wire[..n], T.Carried(r.calls));
    }
  }

  lemma {:induction false} CarriedShort(cs: seq<T.Call>)
    ensures forall i :: 0 <= i < |T.Carried(cs)| ==> |T.Carried(cs)[i].payload| < Server.BUFFER_SIZE - HEADER
  {
    if |cs| > 0 { CarriedShort(cs[..|cs| - 1]); }
  }

  lemma {:induction false} CallsLegal(s: T.Tx, acts: seq<T.Action>)
    requires T.Shape(s) && W.AllLegal(s.calls)
    ensures W.AllLegal(T.Run(s, acts).calls)
    decreases |acts|
  {
    hide T.PodStep, T.ArcStep, T.Shape;
    if |acts| > 0 { CallsLegal(T.Step(s, acts[0]), acts[1..]); }
  }
}
