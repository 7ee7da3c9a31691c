/** A read of the server inside a run of the whole pipe: what it adds to the stream is decoded and
    dispatched, and no reply ever finds the transmitter busy. */
module PipeReads {
  import opened Bits
  import opened Framing
  import opened Shuffle
  import opened HostChannels
  import opened Words
  import opened PipeSystem
  import opened PipeSafety
  import Server
  import T = TxPipe
  import R = RxPipe
  import W = TxWire

  // ---- One dispatched packet

  lemma ReplyLegal(files: Files, st: State, p: Packet)
    requires Sound(st) && RequestOk(p)
    ensures Handle(files, st, p).reply.Some? ==> R.Legal(Handle(files, st, p).reply.value)
  {
    hide CString, ReadInto, Le32, InitResponse;
  }

  /** A server all of whose packets have been received owes nothing. */
  lemma NothingOwed(rx: R.Rx)
    requires R.Inv(rx) && rx.received == rx.given && !rx.pod.Faulted?
    ensures rx.owed == []
  {
    R.NoFrames();
    hide Frames, R.Counters, R.Flight, R.PodProgress, R.Held;
    assert rx.accepted == rx.given;
    assert rx.given[|rx.accepted|..] == [];
  }

  lemma SendOk(rx: R.Rx, form: Form, q: Packet)
    requires RxOk(rx, form) && rx.received == rx.given
    ensures RxOk(R.SendStep(rx, q), form)
  {
    RxStepOkSend(rx, q);
    hide R.Inv, R.Solo;
  }

  lemma RxStepOkSend(rx: R.Rx, q: Packet)
    requires R.Inv(rx) && R.Solo(rx) && rx.received == rx.given
    ensures R.Inv(R.SendStep(rx, q)) && R.Solo(R.SendStep(rx, q))
  {
    R.SendInv(rx, q);
    R.SoloStep(rx, R.Send(q));
    hide R.Inv, R.Solo, R.SendStep;
  }

  /** Only the server's channel state, its history and its transmitter may differ. */
  predicate DispatchOnly(w: World, r: World, ps: seq<Packet>) {
    && r.files == w.files && r.form == w.form && r.tx == w.tx && r.cli == w.cli
    && r.srv.read == w.srv.read && r.srv.held == w.srv.held && r.srv.faulted == w.srv.faulted
    && r.srv.dispatched == w.srv.dispatched + ps
    && r.rx.received == w.rx.received && r.rx.arc == w.rx.arc
  }

  predicate ServerOk(w: World) {
    Shape(w) && RxOk(w.rx, w.form) && HostOk(w.files, w.srv, w.rx.given)
  }

  lemma CaughtUp(w: World)
    requires ServerOk(w) && CountExpected(w.srv.dispatched) <= |w.rx.received|
    ensures w.rx.received == w.rx.given && w.rx.owed == []
  {
    hide Serve, CountExpected, R.Conserved, R.Counters, R.Flight, R.PodProgress;
    assert w.rx.received <= w.rx.given;
    NothingOwed(w.rx);
  }

  /** The reply handed to an idle transmitter. */
  lemma GiveOk(w: World, q: Packet)
    requires ServerOk(w) && w.rx.received == w.rx.given && w.rx.owed == [] && R.Legal(q)
    ensures var r := R.SendStep(w.rx, q);
      && R.Shape(r) && RxOk(r, w.form) && r.given == w.rx.given + [q] && r.received == w.rx.received
      && r.arc == w.rx.arc
  {
    SendOk(w.rx, w.form, q);
    hide RxOk, HostOk, R.Legal, Frame, T.Shape;
  }

  lemma DispatchKeeps(w: World, p: Packet)
    requires ServerOk(w) && RequestOk(p)
    requires Expected(p) ==> CountExpected(w.srv.dispatched) <= |w.rx.received|
    ensures var r := Dispatch(w, p);
      ServerOk(r) && DispatchOnly(w, r, [p])
    ensures Sound(w.srv.host) && Handle(w.files, w.srv.host, p).reply.Some? ==>
      w.rx.owed == [] && Dispatch(w, p).rx.given == w.rx.given + [Handle(w.files, w.srv.host, p).reply.value]
  {
    assert Sound(w.srv.host) && Shape(w) by { hide RxOk, T.Shape, R.Shape, Serve; }
    ServeSnoc(w.files, Fresh(), w.srv.dispatched, p);
    ReplyLegal(w.files, w.srv.host, p);
    var h := Handle(w.files, w.srv.host, p);
    if h.reply.Some? {
      CaughtUp(w);
      GiveOk(w, h.reply.value);
    }
    hide Serve, Handle, CountExpected, RxOk, Expected, RequestOk, Frame, R.Legal, R.SendStep, T.Shape, R.Shape;
  }

  /** No reply is lost without trace: it is given to the transmitter, or the fault is on record, and that
      only for a transmitter that is busy or a packet that the pipe does not carry. */
  lemma ReplyGivenOrNoted(w: World, p: Packet)
    requires Shape(w)
    ensures var r, h := Dispatch(w, p), Handle(w.files, w.srv.host, p);
      && (h.reply.None? ==> r.rx == w.rx && r.srv.clobbered == w.srv.clobbered)
      && (h.reply.Some? ==>
            var busy := w.rx.owed != [] || !R.Legal(h.reply.value);
            && r.srv.clobbered == (w.srv.clobbered || busy)
            && r.rx.given == w.rx.given + (if busy then [] else [h.reply.value]))
  {
    hide Handle, Frame, T.Shape, R.Shape;
  }

  // ---- The packets of one read

  lemma SplitFirst(ds: seq<Packet>, ps: seq<Packet>, sent: seq<Packet>)
    requires |ps| > 0 && ds + ps <= sent
    ensures ds + [ps[0]] <= sent && (ds + [ps[0]]) + ps[1..] <= sent && ps[0] == sent[|ds|]
    ensures (ds + [ps[0]]) + ps[1..] == ds + ps
  {}

  lemma {:induction false} DispatchAllKeeps(w: World, ps: seq<Packet>, sent: seq<Packet>)
    requires Shape(w) && ServerOk(w) && RequestsOk(sent) && w.srv.dispatched + ps <= sent
    requires CountExpected(sent) <= |w.rx.received| + 1
    ensures var r := DispatchAll(w, ps);
      ServerOk(r) && DispatchOnly(w, r, ps)
    decreases |ps|
  {
    hide ServerOk, Dispatch, Expected, RequestOk, CountExpected;
    if |ps| == 0 {
      assert w.srv.dispatched + [] == w.srv.dispatched;
    } else {
      SplitFirst(w.srv.dispatched, ps, sent);
      CountPrefix(w.srv.dispatched + [ps[0]], sent);
      ServeSnoc(w.files, Fresh(), w.srv.dispatched, ps[0]);
      DispatchKeeps(w, ps[0]);
      DispatchAllKeeps(Dispatch(w, ps[0]), ps[1..], sent);
    }
  }

  // ---- The stream

  /** Appending to what is held continues the decoding of the wire. */
  lemma HeldGrows(wire: seq<Byte>, srv: Srv, m: nat)
    requires UpOk(wire, srv) && srv.read + m <= |wire|
    ensures var d := Decode(srv.held + wire[srv.read..srv.read + m], Server.NEED);
      Decode(wire[..srv.read + m], Server.NEED) == Decoded(srv.dispatched + d.packets, d.rest)
  {
    hide Decode;
    DecodeAppend(wire[..srv.read], wire[srv.read..srv.read + m], Server.NEED);
    assert wire[..srv.read + m] == wire[..srv.read] + wire[srv.read..srv.read + m];
  }

  /** With at most one packet under way, no read brings bytes of a second one. */
  lemma NoSurplus(tx: T.Tx, srv: Srv, m: nat)
    requires TxOk(tx) && UpOk(tx.wire, srv) && srv.read + m <= |tx.wire| && |tx.calls| <= |srv.dispatched| + 1
    ensures !Server.Surplus(srv.held + tx.wire[srv.read..srv.read + m])
  {
    RequestsCarried(tx);
    hide TxOk, UpOk, Frames, Server.Surplus;
    DecodedRest(tx.wire, srv, W.Packets(tx.calls), m);
  }

  lemma DecodedRest(wire: seq<Byte>, srv: Srv, sent: seq<Packet>, m: nat)
    requires UpOk(wire, srv) && srv.read + m <= |wire| && wire <= Frames(sent)
    requires AllSized(sent) && NoneEmpty(sent) && |sent| <= |srv.dispatched| + 1
    ensures !Server.Surplus(srv.held + wire[srv.read..srv.read + m])
  {
    hide Frames, Decode;
    PrefixOf(wire, srv.read, Frames(sent));
    var t := DecodeRest(wire[..srv.read], sent, Server.NEED);
    OneFrame(wire, Frames(sent), srv, m, sent, t);
  }

  lemma OneFrame(wire: seq<Byte>, whole: seq<Byte>, srv: Srv, m: nat, sent: seq<Packet>, t: seq<Byte>)
    requires AllSized(sent) && wire <= whole == Frames(sent) && srv.read + m <= |wire|
    requires |sent| <= |srv.dispatched| + 1 && srv.dispatched <= sent
    requires srv.held + t == Frames(sent[|srv.dispatched|..]) && t == whole[srv.read..]
    ensures !Server.Surplus(srv.held + wire[srv.read..srv.read + m])
  {
    hide Frames, FrameLen, FirstPacket;
    var chunk, gs := wire[srv.read..srv.read + m], sent[|srv.dispatched|..];
    assert t == chunk + t[m..];
    ConcatAssoc(srv.held, chunk, t[m..]);
    if Server.Surplus(srv.held + chunk) {
      NextFrame(srv.held + chunk, t[m..], gs);
      assert gs[1..] == [];
      R.NoFrames();
    }
  }

  lemma RestBound(tx: T.Tx, n: nat)
    requires TxOk(tx) && n <= |tx.wire|
    ensures |Decode(tx.wire[..n], Server.NEED).rest| < Server.BUFFER_SIZE
    ensures Decode(tx.wire[..n], Server.NEED).packets <= W.Packets(tx.calls)
  {
    RequestsCarried(tx);
    var sent := W.Packets(tx.calls);
    forall i | 0 <= i < |sent|
      ensures |sent[i].payload| <= Server.BUFFER_SIZE - HEADER
    {
      RequestSize(sent[i]);
    }
    hide TxOk, Frames, Decode, W.Packets;
    PrefixOf(tx.wire, n, Frames(sent));
    Server.ReassemblySafety(tx.wire[..n], sent);
  }

  // ---- The read as a whole

  lemma OneOwed(w: World)
    requires Inv(w)
    ensures CountExpected(Sent(w)) <= |w.rx.received| + 1
  {
    hide CountExpected, TxOk, RxOk, UpOk, HostOk, Conversation, ResultsOk, FilesOk, Shape;
  }

  /** The read's bytes, reassembled. */
  function Advanced(srv: Srv, m: nat, d: Decoded): Srv {
    srv.(read := srv.read + m, held := d.rest)
  }

  /** At most one request has not had its reply. */
  predicate AtMostOneOwed(w: World) { CountExpected(Sent(w)) <= |w.rx.received| + 1 }

  lemma ReadReassembles(w: World, m: nat)
    requires Base(w) && w.srv.read + m <= |w.tx.wire|
    requires w.form.AsWritten? ==> !Server.Surplus(w.srv.held + w.tx.wire[w.srv.read..w.srv.read + m])
    ensures var held := w.srv.held + w.tx.wire[w.srv.read..w.srv.read + m];
      var d := Decode(held, Server.NEED);
      && Server.Reassemble(w.form, held) == Server.Reassembly(d.packets, d.rest, false)
      && UpOk(w.tx.wire, Advanced(w.srv, m, d).(dispatched := w.srv.dispatched + d.packets))
      && w.srv.dispatched + d.packets <= Sent(w)
  {
    hide TxOk, RxOk, HostOk, ResultsOk, FilesOk, Shape, Decode, Server.Surplus;
    HeldGrows(w.tx.wire, w.srv, m);
    RestBound(w.tx, w.srv.read + m);
  }

  lemma ReadBaseAfter(w: World, m: nat, d: Decoded, r: World)
    requires Base(w) && ServerOk(r)
    requires UpOk(w.tx.wire, Advanced(w.srv, m, d).(dispatched := w.srv.dispatched + d.packets))
    requires DispatchOnly(w.(srv := Advanced(w.srv, m, d)), r, d.packets)
    ensures Base(r)
  {
    hide TxOk, RxOk, HostOk, ResultsOk, FilesOk, Decode, T.Shape, R.Shape;
  }

  lemma ReadServerOk(w: World, m: nat, d: Decoded)
    requires Base(w)
    ensures Shape(w.(srv := Advanced(w.srv, m, d))) && ServerOk(w.(srv := Advanced(w.srv, m, d)))
    ensures RequestsOk(Sent(w)) && !w.srv.faulted
  {
    hide RxOk, RequestsOk, T.Inv, W.WireExact, Serve, ResultsOk, FilesOk, T.Shape, R.Shape, Decode;
  }

  /** Neither the client nor what it sees has changed. */
  predicate ReadOnly(w: World, r: World) {
    && r.files == w.files && r.form == w.form && r.tx == w.tx && r.cli == w.cli
    && r.rx.received == w.rx.received && r.rx.arc == w.rx.arc
  }

  lemma DispatchedOnly(w: World, srv: Srv, r: World, ps: seq<Packet>)
    requires DispatchOnly(w.(srv := srv), r, ps)
    ensures ReadOnly(w, r)
  {}

  lemma ReadDispatches(w: World, m: nat)
    requires Base(w) && AtMostOneOwed(w) && w.srv.read + m <= |w.tx.wire|
    requires w.form.AsWritten? ==> !Server.Surplus(w.srv.held + w.tx.wire[w.srv.read..w.srv.read + m])
    ensures var held := w.srv.held + w.tx.wire[w.srv.read..w.srv.read + m];
      var a := Server.Reassemble(w.form, held);
      var t := w.(srv := w.srv.(read := w.srv.read + m, held := a.rest, faulted := a.faulted));
      && Shape(t) && Base(DispatchAll(t, a.packets)) && ReadOnly(w, DispatchAll(t, a.packets))
  {
    hide Base, UpOk, DispatchAll, ServerOk, Server.Reassemble, RequestsOk, Shape, Decode, CountExpected,
      Server.Surplus, Sent, ReadOnly, DispatchOnly;
    ReadReassembles(w, m);
    var d := Decode(w.srv.held + w.tx.wire[w.srv.read..w.srv.read + m], Server.NEED);
    var t := w.(srv := Advanced(w.srv, m, d));
    ReadServerOk(w, m, d);
    DispatchAllKeeps(t, d.packets, Sent(w));
    ReadBaseAfter(w, m, d, DispatchAll(t, d.packets));
    DispatchedOnly(w, Advanced(w.srv, m, d), DispatchAll(t, d.packets), d.packets);
  }

  lemma ReadBase(w: World, n: nat)
    requires Base(w) && AtMostOneOwed(w) && (w.form.AsWritten? ==> Spares(w, Read(n)))
    ensures Base(ReadStep(w, n)) && ReadOnly(w, ReadStep(w, n))
  {
    hide Base, DispatchAll, Server.Reassemble, Server.Surplus, AtMostOneOwed, Shape;
    BaseShape(w);
    if !w.srv.faulted && Readable(w) { ReadDispatches(w, Taken(w, n)); }
  }

  lemma ReadInv(w: World, n: nat)
    requires Inv(w) && (w.form.AsWritten? ==> Spares(w, Read(n)))
    ensures Inv(ReadStep(w, n))
  {
    OneOwed(w);
    ReadBase(w, n);
    hide Base, ReadStep, CountExpected, Conversation, Disciplined, Spares;
  }
}
