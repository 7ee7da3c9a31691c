/** The whole pipe gets there: every command can be carried through, for any number of commands and
    with either form of the excess subtraction; and, as the source writes it, a second command can
    also run into the subtraction. */
module PipeProgress {
  import opened Bits
  import opened Framing
  import opened Shuffle
  import opened HostChannels
  import opened Memory
  import opened Words
  import opened PipeSystem
  import opened PipeSafety
  import CopyClient
  import PipeReads
  import PipeRuns
  import PipeTalk
  import Server
  import T = TxPipe
  import R = RxPipe
  import W = TxWire
  import TG = TxProgress
  import RG = RxProgress

  // ---- Runs in pieces

  /** A run of w that keeps clear of the excess branch, asks only for files the copy loop can handle,
      and ends in r, where the invariant holds. */
  predicate Carries(w: World, acts: seq<Action>, r: World) {
    && Shape(w) && Run(w, acts) == r && Spared(w, acts) && AllCopyable(w.files, acts)
    && Inv(r) && r.files == w.files && r.form == w.form
  }

  lemma {:induction false} RunAppend(w: World, a: seq<Action>, b: seq<Action>)
    requires Shape(w)
    ensures Run(w, a + b) == Run(Run(w, a), b)
    ensures Spared(w, a) && Spared(Run(w, a), b) ==> Spared(w, a + b)
    decreases |a|
  {
    hide Step, Shape, Spares;
    if |a| == 0 {
      assert a + b == b;
    } else {
      assert (a + b)[0] == a[0] && (a + b)[1..] == a[1..] + b;
      RunAppend(Step(w, a[0]), a[1..], b);
    }
  }

  lemma Both(fs: Files, a: seq<Action>, b: seq<Action>)
    requires AllCopyable(fs, a) && AllCopyable(fs, b)
    ensures AllCopyable(fs, a + b)
  {
    hide Copyable;
  }

  lemma Then(w: World, a: seq<Action>, m: World, b: seq<Action>, r: World)
    requires Carries(w, a, m) && Carries(m, b, r)
    ensures Carries(w, a + b, r)
  {
    hide Run, Spared, AllCopyable, Inv, Shape;
    RunAppend(w, a, b);
    Both(w.files, a, b);
  }

  /** No reads and no commands. */
  predicate Plain(acts: seq<Action>) { forall i :: 0 <= i < |acts| ==> !acts[i].Read? && !acts[i].Command? }

  lemma {:induction false} PlainSpared(w: World, acts: seq<Action>)
    requires Shape(w) && Plain(acts)
    ensures Spared(w, acts)
    decreases |acts|
  {
    hide Step, Shape;
    if |acts| > 0 { PlainSpared(Step(w, acts[0]), acts[1..]); }
  }

  lemma PlainCarries(w: World, acts: seq<Action>)
    requires Shape(w) && Inv(w) && Plain(acts)
    ensures Carries(w, acts, Run(w, acts))
  {
    PlainSpared(w, acts);
    assert AllCopyable(w.files, acts);
    hide Run, Spared, AllCopyable, Inv, Shape;
    PipeRuns.RunInv(w, acts);
    PipeRuns.RunLater(w, acts);
  }

  lemma OneCarries(w: World, a: Action)
    requires Shape(w) && Inv(w) && Spares(w, a) && (a.Command? ==> Copyable(w.files, a.name))
    ensures Carries(w, [a], Step(w, a))
  {
    hide Inv, Step, Shape, Spares, Copyable;
    PipeRuns.StepInv(w, a);
    PipeRuns.StepLater(w, a);
    assert [a][1..] == [];
    var r := Step(w, a);
    assert Run(r, []) == r && Spared(r, []);
    assert Run(w, [a]) == r && Spared(w, [a]);
  }

  lemma ShapeOf(w: World)
    requires Inv(w)
    ensures Shape(w) && |w.cli.scratch| == SCRATCH_SIZE
  {
    hide TxOk, RxOk, UpOk, HostOk, Conversation, ResultsOk, Disciplined, T.Shape, R.Shape;
  }

  // ---- Runs of one direction as runs of the whole

  function LiftTx(acts: seq<T.Action>): (r: seq<Action>)
    requires TG.Inside(acts)
    ensures Plain(r)
  {
    if |acts| == 0 then []
    else [match acts[0] case Pod(n) => TxPod(n) case _ => TxArc] + LiftTx(acts[1..])
  }

  lemma {:induction false} LiftTxRun(w: World, acts: seq<T.Action>)
    requires Shape(w) && TG.Inside(acts)
    ensures T.Shape(w.tx) && Run(w, LiftTx(acts)) == w.(tx := T.Run(w.tx, acts))
    decreases |acts|
  {
    hide T.ArcStep, T.PodStep, T.Shape, R.Shape;
    if |acts| > 0 {
      var a := match acts[0] case Pod(n) => TxPod(n) case _ => TxArc;
      var t := w.(tx := T.Step(w.tx, acts[0]));
      assert Step(w, a) == t;
      LiftTxRun(t, acts[1..]);
      assert LiftTx(acts)[0] == a && LiftTx(acts)[1..] == LiftTx(acts[1..]);
    }
  }

  function LiftRx(acts: seq<R.Action>): (r: seq<Action>)
    requires RG.Inside(acts)
    ensures Plain(r)
  {
    if |acts| == 0 then []
    else [match acts[0] case Pod(n) => RxPod(n) case Write(n) => Write(n) case _ => RxArc] + LiftRx(acts[1..])
  }

  lemma {:induction false} LiftRxRun(w: World, acts: seq<R.Action>)
    requires Shape(w) && RG.Inside(acts)
    ensures R.Shape(w.rx) && Run(w, LiftRx(acts)) == w.(rx := R.Run(w.rx, acts))
    decreases |acts|
  {
    hide R.ArcStep, R.PodStep, R.WriteStep, T.Shape, R.Shape;
    if |acts| > 0 {
      var a := match acts[0] case Pod(n) => RxPod(n) case Write(n) => Write(n) case _ => RxArc;
      var t := w.(rx := R.Step(w.rx, acts[0]));
      assert Step(w, a) == t;
      LiftRxRun(t, acts[1..]);
      assert LiftRx(acts)[0] == a && LiftRx(acts)[1..] == LiftRx(acts[1..]);
    }
  }

  // ---- The states between segments

  /** Between commands, with nothing on its way anywhere. */
  predicate Calm(w: World) {
    Inv(w) && TG.Ready(w.tx) && RG.Quiet(w.rx) && w.srv.read == |w.tx.wire| && w.cli.phase.Prompt?
  }

  /** The client has just entered pipe_packet_tx; nothing else is on its way. */
  predicate Calling(w: World) {
    && Inv(w) && TG.Entered(w.tx) && RG.Quiet(w.rx) && w.srv.read == |w.tx.wire|
    && w.srv.held == [] && |w.tx.calls| == |w.srv.dispatched| + 1
  }

  /** The call is over, and the server has not yet read its frame. */
  predicate Called(w: World) {
    && Inv(w) && TG.Ready(w.tx) && RG.Quiet(w.rx)
    && w.srv.held == [] && |w.tx.calls| == |w.srv.dispatched| + 1
    && w.srv.read <= |w.tx.wire| && w.tx.wire[..w.srv.read] == Frames(w.srv.dispatched)
  }

  lemma SentOnWire(tx: T.Tx)
    requires TxOk(tx) && tx.wire == Frames(T.Carried(tx.calls))
    ensures tx.wire == Frames(W.Packets(tx.calls)) && |W.Packets(tx.calls)| == |tx.calls|
    ensures AllSized(W.Packets(tx.calls)) && NoneEmpty(W.Packets(tx.calls))
  {
    RequestsCarried(tx);
    hide T.Inv, W.WireExact, Frames;
    forall i | 0 <= i < |tx.calls|
      ensures T.Fits(tx.calls[i])
    {
      RequestSize(W.Packets(tx.calls)[i]);
    }
    W.CarriedAll(tx.calls);
  }

  /** A server that has read the whole wire has dispatched everything, and holds nothing. */
  lemma UpToDate(w: World)
    requires Inv(w) && w.tx.wire == Frames(T.Carried(w.tx.calls)) && w.srv.read == |w.tx.wire|
    ensures w.srv.dispatched == Sent(w) && w.srv.held == [] && |Sent(w)| == |w.tx.calls|
  {
    SentOnWire(w.tx);
    assert UpOk(w.tx.wire, w.srv) by { hide TxOk, RxOk, UpOk, HostOk, Conversation, ResultsOk, Disciplined, T.Shape,
      R.Shape; }
    hide Inv, UpOk, W.Packets, T.Carried, Frames;
    AllDecoded(w.tx.wire, w.srv, Sent(w));
  }

  lemma AllDecoded(wire: seq<Byte>, srv: Srv, ps: seq<Packet>)
    requires UpOk(wire, srv) && srv.read == |wire| && wire == Frames(ps) && AllSized(ps) && NoneEmpty(ps)
    ensures srv.dispatched == ps && srv.held == []
  {
    hide Frames, Decode;
    DecodeOfFrames(ps, Server.NEED);
    assert wire[..srv.read] == wire;
  }

  // ---- The first segment: a call

  /** What a call leaves of the rest of the world. */
  predicate TxOnly(w: World, r: World) { r == w.(tx := r.tx) && r.tx.calls == w.tx.calls }

  lemma Transmits(w: World) returns (acts: seq<Action>, r: World)
    requires Inv(w) && TG.Entered(w.tx)
    ensures Carries(w, acts, r) && TxOnly(w, r) && Inv(r) && TG.Ready(r.tx) && w.tx.wire <= r.tx.wire
  {
    ShapeOf(w);
    var ts := TG.CallFinishes(w.tx);
    acts := LiftTx(ts);
    assert T.Shape(w.tx);
    hide Inv, T.Run, TG.Ready, TG.Entered, Run, Shape, T.Shape, Carries;
    LiftTxRun(w, ts);
    PlainCarries(w, acts);
    r := Run(w, acts);
    CarriesInv(w, acts, r);
    WireGrows(w.tx, ts);
  }

  lemma Sends(w: World) returns (acts: seq<Action>, r: World)
    requires Calling(w)
    ensures Carries(w, acts, r) && TxOnly(w, r) && Called(r) && r.srv.read == |w.tx.wire|
  {
    CallingWire(w);
    hide Inv, TG.Ready, TG.Entered, RG.Quiet, Frames, Carries;
    acts, r := Transmits(w);
    PrefixOf(w.tx.wire, |w.tx.wire|, r.tx.wire);
    assert w.tx.wire[..|w.tx.wire|] == w.tx.wire;
  }

  /** The wire, before the call's frame is on it, is what the server has dispatched. */
  lemma CallingWire(w: World)
    requires Calling(w)
    ensures w.tx.wire == Frames(w.srv.dispatched)
  {
    hide TxOk, RxOk, HostOk, Conversation, ResultsOk, Disciplined, T.Shape, R.Shape, Frames, Decode, TG.Entered,
      RG.Quiet;
    DecodeConserves(w.tx.wire, Server.NEED);
    assert w.tx.wire[..w.srv.read] == w.tx.wire;
    assert Frames(w.srv.dispatched) + [] == Frames(w.srv.dispatched);
  }

  lemma {:induction false} WireGrows(s: T.Tx, acts: seq<T.Action>)
    requires T.Shape(s) && TG.Inside(acts)
    ensures s.wire <= T.Run(s, acts).wire
    decreases |acts|
  {
    hide T.ArcStep, T.PodStep, T.Shape;
    if |acts| > 0 {
      match acts[0] {
        case Pod(n) => T.PodWire(s, n);
        case _ =>
      }
      WireGrows(T.Step(s, acts[0]), acts[1..]);
    }
  }

  // ---- The second segment: the server reads it

  lemma OnWire(w: World)
    requires Inv(w) && TG.Ready(w.tx)
    ensures w.tx.wire == Frames(Sent(w)) && |Sent(w)| == |w.tx.calls|
    ensures w.srv.dispatched <= Sent(w) && RequestsOk(Sent(w))
  {
    hide HostOk, Conversation, ResultsOk, Disciplined, T.Shape, R.Shape, RxOk, T.Inv, Frames, W.WireExact, Decode,
      RequestsOk;
    SentOnWire(w.tx);
    DispatchedPrefix(w.tx, w.srv);
  }

  lemma Behind<X>(s: seq<X>, n: nat, a: seq<X>, b: seq<X>)
    requires n <= |s| && s[..n] == a && s == a + b
    ensures s[n..] == b
  {}

  lemma LastFrame(w: World) returns (p: Packet)
    requires Called(w)
    ensures Sent(w) == w.srv.dispatched + [p] && RequestOk(p)
    ensures w.srv.read <= |w.tx.wire| && w.tx.wire[w.srv.read..] == Frame(p)
  {
    OnWire(w);
    hide Inv, Frames, Frame, TG.Ready, RG.Quiet, RequestOk, Sent;
    var ds := w.srv.dispatched;
    p := Sent(w)[|ds|];
    assert Sent(w) == ds + [p];
    FramesSnoc(ds, p);
    Behind(w.tx.wire, w.srv.read, Frames(ds), Frame(p));
  }

  lemma GathersOne(w: World, p: Packet)
    requires Readable(w) && w.srv.held == [] && w.tx.wire[w.srv.read..] == Frame(p) && RequestOk(p)
    ensures Taken(w, Server.BUFFER_SIZE) == |w.tx.wire| - w.srv.read
    ensures Gathered(w, Server.BUFFER_SIZE) == Frame(p)
    ensures !Server.Surplus(Frame(p)) && Decode(Frame(p), Server.NEED) == Decoded([p], [])
  {
    RequestSize(p);
    assert |Frame(p)| == HEADER + |p.payload|;
    assert w.srv.held + w.tx.wire[w.srv.read..|w.tx.wire|] == Frame(p);
    FrameAlone(p);
  }

  lemma FrameAlone(p: Packet)
    requires RequestOk(p)
    ensures !Server.Surplus(Frame(p)) && Decode(Frame(p), Server.NEED) == Decoded([p], [])
  {
    RequestSize(p);
    hide RequestOk, Frame, FrameLen, FirstPacket;
    FrameHeader(p, []);
    assert Frame(p) + [] == Frame(p);
    R.NoFrames();
    assert [p][1..] == [];
    assert Frames([p]) == Frame(p);
    hide Frames, Decode;
    DecodeOfFrames([p], Server.NEED);
  }

  /** The read that brings one whole frame. */
  lemma ReadsOne(w: World, p: Packet)
    requires Shape(w) && Readable(w) && !w.srv.faulted
    requires w.srv.held == [] && w.tx.wire[w.srv.read..] == Frame(p) && RequestOk(p)
    ensures var t := w.(srv := w.srv.(read := |w.tx.wire|, held := [], faulted := false));
      Step(w, Read(Server.BUFFER_SIZE)) == Dispatch(t, p) && Spares(w, Read(Server.BUFFER_SIZE))
  {
    GathersOne(w, p);
    var t := w.(srv := w.srv.(read := |w.tx.wire|, held := [], faulted := false));
    hide Frame, Decode, Dispatch, RequestOk, Server.Surplus, Gathered, Taken, Shape;
    assert Server.Reassemble(w.form, Frame(p)) == Server.Reassembly([p], [], false);
    hide Server.Reassemble;
    assert DispatchAll(t, [p]) == Dispatch(t, p) by {
      assert [p][1..] == [];
      assert DispatchAll(Dispatch(t, p), []) == Dispatch(t, p);
    }
  }

  /** What the reply, if there is one, does to the receive side. */
  predicate Replying(w: World, r: World, h: Reaction) {
    match h.reply
    case None => r.rx == w.rx
    case Some(q) => R.Shape(w.rx) && R.Legal(q) && w.rx.owed == [] && r.rx == R.SendStep(w.rx, q)
  }

  lemma DispatchesOne(t: World, p: Packet)
    requires Shape(t) && RequestOk(p) && t.rx.owed == []
    ensures var r := Dispatch(t, p);
      && r.tx == t.tx && r.cli == t.cli && r.srv.read == t.srv.read && Replying(t, r, Handle(t.files, t.srv.host, p))
  {
    PipeReads.ReplyLegal(t.files, t.srv.host, p);
    hide Handle, R.Legal, R.SendStep, RequestOk, T.Shape, R.Shape;
  }

  lemma ServerReads(w: World) returns (acts: seq<Action>, r: World)
    requires Called(w)
    ensures Carries(w, acts, r) && r.tx == w.tx && r.cli == w.cli && r.srv.read == |w.tx.wire|
    ensures |Sent(w)| > 0 && Sound(w.srv.host)
    ensures Replying(w, r, Handle(w.files, w.srv.host, Sent(w)[|Sent(w)| - 1]))
    ensures Serve(w.files, Fresh(), Sent(w)[..|Sent(w)| - 1]).state == w.srv.host
  {
    var p := LastFrame(w);
    assert Shape(w) && !w.srv.faulted && Sound(w.srv.host) && w.rx.owed == [] by {
      hide TxOk, RxOk, Conversation, ResultsOk, Disciplined, T.Shape, R.Shape, R.Inv, Decode;
    }
    assert Serve(w.files, Fresh(), w.srv.dispatched).state == w.srv.host by {
      hide TxOk, RxOk, Conversation, ResultsOk, Disciplined, T.Shape, R.Shape, R.Inv, Decode, Serve;
    }
    hide Inv, TG.Ready, RG.Quiet, Frame, Frames, Dispatch, RequestOk, Handle, Serve, Sent, Step, Shape, Spares,
      Replying;
    ReadsOne(w, p);
    DispatchesOne(w.(srv := w.srv.(read := |w.tx.wire|, held := [], faulted := false)), p);
    acts := [Read(Server.BUFFER_SIZE)];
    OneCarries(w, acts[0]);
    r := Step(w, acts[0]);
    PipeTalk.Snoc(w.srv.dispatched, p);
    SameReplying(w, r, p);
  }

  lemma SameReplying(w: World, r: World, p: Packet)
    requires Shape(w)
    requires var t := w.(srv := w.srv.(read := |w.tx.wire|, held := [], faulted := false));
      Replying(t, r, Handle(t.files, t.srv.host, p))
    ensures Replying(w, r, Handle(w.files, w.srv.host, p))
  {
    hide Handle, R.SendStep, R.Legal;
  }

  // ---- The third segment: the reply

  lemma Answers(files: Files, st: State, p: Packet, k: Talk)
    requires Sound(st) && TalkOk(files, st, p, k)
    ensures Handle(files, st, p).reply.Some?
  {
    hide Handle, CString, ReadLe32, CopyClient.BlockSize;
    match k
    case Opening(name) => PipeTalk.OpenHandled(files, st, p, name);
    case Reading(_, _, _, _, _) => PipeTalk.BlockHandled(files, st, p, k);
  }

  /** One packet given by a server that owed nothing, and the Archimedes waiting for it. */
  lemma GivesOne(rx: R.Rx, q: Packet, form: Form)
    requires RG.Quiet(rx) && R.Legal(q) && RxOk(R.SendStep(rx, q).(arc := R.Polling), form)
    ensures RG.Owing(R.SendStep(rx, q).(arc := R.Polling))
  {
    hide R.Inv, Frame, R.Solo;
  }

  /** The client holds a reply, and nothing is on its way. */
  predicate Answered(w: World) {
    && Inv(w) && TG.Ready(w.tx) && RG.Quiet(w.rx) && w.srv.read == |w.tx.wire| && |w.rx.received| > 0
    && w.cli.phase.Awaiting?
  }

  /** pipe_packet_rx is entered with the reply already given. */
  lemma Awaits(w: World, m: World, h: Reaction, k: Talk) returns (r: World)
    requires Shape(w) && RG.Quiet(w.rx) && Inv(m) && m.cli.phase == Sending(k) && TG.Ready(m.tx)
      && Replying(w, m, h) && h.reply.Some?
    ensures Carries(m, [Go(false)], r) && r == m.(rx := r.rx, cli := m.cli.(phase := Awaiting(k)))
    ensures RG.Owing(r.rx)
  {
    var q := h.reply.value;
    assert R.Shape(w.rx) && R.Legal(q) && m.rx == R.SendStep(w.rx, q);
    assert w.rx.arc.Idle? && m.tx.arc.Idle? by { hide T.Inv, R.Inv, Frames; }
    assert m.rx.arc.Idle? by { hide R.Inv, Frame; }
    hide Inv, TG.Ready, RG.Quiet, R.SendStep, Carries, Replying, RG.Owing;
    r := Polls(m, k);
    CarriesInv(m, [Go(false)], r);
    RxParts(r);
    GivesOne(w.rx, q, r.form);
  }

  lemma Polls(m: World, k: Talk) returns (r: World)
    requires Inv(m) && m.cli.phase == Sending(k) && m.tx.arc.Idle? && m.rx.arc.Idle?
    ensures Carries(m, [Go(false)], r)
    ensures r == m.(rx := m.rx.(arc := R.Polling), cli := m.cli.(phase := Awaiting(k)))
  {
    ShapeOf(m);
    hide Inv, Shape, Carries;
    OneCarries(m, Go(false));
    r := Step(m, Go(false));
    GoFromSending(m, k);
  }

  lemma GoFromSending(m: World, k: Talk)
    requires Shape(m) && m.cli.phase == Sending(k) && m.tx.arc.Idle? && m.rx.arc.Idle?
    ensures Step(m, Go(false)) == m.(rx := m.rx.(arc := R.Polling), cli := m.cli.(phase := Awaiting(k)))
  {
    hide Shape;
  }

  lemma GoFromClosing(m: World, x: Result)
    requires Shape(m) && m.cli.phase == Closing(x) && m.tx.arc.Idle?
    ensures Step(m, Go(false)) == m.(cli := m.cli.(phase := Prompt, results := m.cli.results + [x]))
  {
    hide Shape;
  }

  lemma RxParts(w: World)
    requires Inv(w)
    ensures RxOk(w.rx, w.form)
  {
    hide TxOk, RxOk, UpOk, HostOk, Conversation, ResultsOk, Disciplined, T.Shape, R.Shape;
  }

  lemma Arrives(w: World) returns (acts: seq<Action>, r: World)
    requires Inv(w) && w.cli.phase.Awaiting? && TG.Ready(w.tx) && w.srv.read == |w.tx.wire| && RG.Owing(w.rx)
    ensures Carries(w, acts, r) && Answered(r) && r == w.(rx := r.rx)
  {
    var rs := RG.PacketArrives(w.rx);
    acts := LiftRx(rs);
    ShapeOf(w);
    assert |w.rx.given| > 0 by { hide R.Inv, Inv; }
    hide Inv, R.Run, TG.Ready, RG.Owing, Run, R.Inv, Shape;
    LiftRxRun(w, rs);
    PlainCarries(w, acts);
    r := Run(w, acts);
  }

  /** A request and its reply. */
  lemma Exchanges(w: World) returns (acts: seq<Action>, r: World)
    requires Calling(w) && w.cli.phase.Sending?
    ensures Carries(w, acts, r) && Answered(r)
    ensures r.cli == w.cli.(phase := Awaiting(w.cli.phase.talk)) && r.tx.calls == w.tx.calls
  {
    var k := w.cli.phase.talk;
    var send, m := Sends(w);
    var read, n := ServerReads(m);
    assert TalkOk(m.files, m.srv.host, Sent(m)[|Sent(m)| - 1], k) by { InTalk(m, k); hide Inv, TalkOk, Carries; }
    Answers(m.files, m.srv.host, Sent(m)[|Sent(m)| - 1], k);
    assert Inv(n) && TG.Ready(n.tx) && RG.Quiet(m.rx) && Shape(m) by { hide Inv, TG.Ready, RG.Quiet, Run, Spared,
      Shape; }
    hide Inv, TG.Ready, RG.Quiet, Carries, Handle, Replying, RG.Owing, Sent, TalkOk, Shape, Serve;
    var o := Awaits(m, n, Handle(m.files, m.srv.host, Sent(m)[|Sent(m)| - 1]), k);
    CarriesInv(n, [Go(false)], o);
    var rest;
    rest, r := Arrives(o);
    Then(w, send, m, read, n);
    Then(w, send + read, n, [Go(false)], o);
    Then(w, send + read + [Go(false)], o, rest, r);
    acts := send + read + [Go(false)] + rest;
  }

  lemma CarriesInv(w: World, acts: seq<Action>, r: World)
    requires Carries(w, acts, r)
    ensures Inv(r)
  {
    hide Inv;
  }

  lemma InTalk(w: World, k: Talk)
    requires Inv(w) && w.cli.phase == Sending(k)
    ensures |Sent(w)| > 0
    ensures TalkOk(w.files, Serve(w.files, Fresh(), Sent(w)[..|Sent(w)| - 1]).state, Sent(w)[|Sent(w)| - 1], k)
  {
    hide TxOk, RxOk, UpOk, HostOk, ResultsOk, Disciplined, T.Shape, R.Shape, TalkOk, Serve, Sent;
  }

  // ---- The fourth segment: the client goes on

  /** r is w with another call just entered. */
  predicate CallMade(w: World, r: World, data: seq<Byte>) {
    && T.Shape(w.tx) && r.tx == T.Begin(w.tx, T.Call(2, data)) && 1 <= |data| <= OPEN_SIZE
    && r.rx == w.rx && r.srv == w.srv
  }

  lemma CallsAgain(w: World, r: World, data: seq<Byte>)
    requires Inv(w) && TG.Ready(w.tx) && RG.Quiet(w.rx) && w.srv.read == |w.tx.wire|
    requires CallMade(w, r, data) && Inv(r)
    ensures Calling(r)
  {
    UpToDate(w);
    EntersTx(w, r, data);
    hide Inv, RG.Quiet, Frames, T.Carried, T.Inv, TG.Entered;
  }

  lemma EntersTx(w: World, r: World, data: seq<Byte>)
    requires TG.Ready(w.tx) && CallMade(w, r, data) && Inv(r)
    ensures TG.Entered(r.tx) && r.tx.wire == w.tx.wire && |r.tx.calls| == |w.tx.calls| + 1
  {
    TxParts(r);
    hide Inv, RG.Quiet, Frames, T.Carried, T.Inv, T.Shape, W.WireExact;
  }

  lemma TxParts(w: World)
    requires Inv(w)
    ensures T.Inv(w.tx) && W.WireExact(w.tx)
  {
    hide RxOk, UpOk, HostOk, Conversation, ResultsOk, Disciplined, R.Shape, T.Shape, T.Inv;
  }

  /** The outcome of a command for a file, there or not. */
  predicate Outcome(files: Files, name: seq<Byte>, r: Result) {
    if name in files.named then r.Copied? && r.name == name && ResultOk(files, r) else r == NotOpened(name)
  }

  lemma LastResult(w: World, rs: seq<Result>, x: Result)
    requires Inv(w) && w.cli.results == rs + [x]
    ensures ResultOk(w.files, x)
  {
    assert ResultsOk(w.files, w.cli.results) by { hide TxOk, RxOk, UpOk, HostOk, Conversation, Disciplined, R.Shape,
      T.Shape; }
    assert (rs + [x])[|rs|] == x;
  }

  /** The parts of the invariant that tell what the client is after. */
  lemma SendingOk(w: World, k: Talk)
    requires Inv(w) && w.cli.phase == Sending(k) && k.Reading?
    ensures k.name in w.files.named && Copyable(w.files, k.name) && k.info.len == |w.files.named[k.name].content|
    ensures k.pos < k.info.len && k.pos % CopyClient.BLOCK == 0 && k.size == CopyClient.BlockSize(k.info.len, k.pos)
  {
    InTalk(w, k);
    hide Inv, ReadLe32, Serve, Sent, CopyClient.BlockSize;
  }

  lemma AwaitingOk(w: World, k: Talk)
    requires Inv(w) && w.cli.phase == Awaiting(k) && k.Reading?
    ensures k.name in w.files.named && Copyable(w.files, k.name) && k.info.len == |w.files.named[k.name].content|
    ensures k.pos < k.info.len && k.pos % CopyClient.BLOCK == 0 && k.size == CopyClient.BlockSize(k.info.len, k.pos)
  {
    assert |Sent(w)| > 0 &&
      TalkOk(w.files, Serve(w.files, Fresh(), Sent(w)[..|Sent(w)| - 1]).state, Sent(w)[|Sent(w)| - 1], k) by {
      hide TxOk, RxOk, UpOk, HostOk, ResultsOk, Disciplined, T.Shape, R.Shape, TalkOk, Serve, Sent;
    }
    hide Inv, ReadLe32, Serve, Sent, CopyClient.BlockSize;
  }

  /** The two ways on from the reply to an open. */
  lemma OpenGoesOn(w: World, name: seq<Byte>) returns (r: World)
    requires Answered(w) && w.cli.phase == Awaiting(Opening(name))
    ensures Carries(w, [Go(false)], r) && r.cli.commands == w.cli.commands
    ensures name !in w.files.named ==> Calm(r) && r.cli.results == w.cli.results + [NotOpened(name)]
    ensures name in w.files.named ==>
      Calling(r) && r.cli.results == w.cli.results && r.cli.phase.Sending?
      && r.cli.phase.talk.Reading? && r.cli.phase.talk.name == name
  {
    ShapeOf(w);
    assert w.rx.arc.Idle? by { hide Inv, R.Inv, TG.Ready; }
    OneCarries(w, Go(false));
    r := Step(w, Go(false));
    CarriesInv(w, [Go(false)], r);
    hide Inv, Carries, TG.Ready, RG.Quiet, T.Begin, ReadLe32, Overlay, BlockRequest, CopyClient.BlockSize, Shape,
      T.Shape;
    var data := OpenContinues(w, name, r);
    if r.cli.phase.Prompt? {
      LastResult(r, w.cli.results, NotOpened(name));
    } else {
      SendingOk(r, r.cli.phase.talk);
      CallsAgain(w, r, data);
    }
  }

  lemma OpenContinues(w: World, name: seq<Byte>, r: World) returns (data: seq<Byte>)
    requires Shape(w) && w.cli.phase == Awaiting(Opening(name)) && w.rx.arc.Idle? && |w.rx.received| > 0
    requires r == Step(w, Go(false))
    ensures r.cli.commands == w.cli.commands
    ensures if r.cli.phase.Prompt? then
        r == w.(cli := r.cli) && r.cli.results == w.cli.results + [NotOpened(name)]
      else
        && CallMade(w, r, data) && r.cli.results == w.cli.results && r.cli.phase.Sending?
        && r.cli.phase.talk.Reading? && r.cli.phase.talk.name == name
  {
    var s := Overlay(w.cli.scratch, w.rx.received[|w.rx.received| - 1].payload);
    hide Overlay, T.Shape, R.Shape, Opened, GotBlock;
    var t := w.(cli := w.cli.(scratch := s));
    assert r == Opened(t, name, false);
    hide Step;
    data := OpenedGoes(t, name);
  }

  lemma OpenedGoes(t: World, name: seq<Byte>) returns (data: seq<Byte>)
    requires Shape(t)
    ensures var r := Opened(t, name, false);
      && r.cli.commands == t.cli.commands
      && if r.cli.phase.Prompt? then
           r == t.(cli := r.cli) && r.cli.results == t.cli.results + [NotOpened(name)]
         else
           && CallMade(t, r, data) && r.cli.results == t.cli.results && r.cli.phase.Sending?
           && r.cli.phase.talk.Reading? && r.cli.phase.talk.name == name
  {
    hide T.Begin, ReadLe32, BlockRequest, CopyClient.BlockSize, T.Shape, R.Shape;
    var s := t.cli.scratch;
    var info := Info(ReadLe32(s, 4), ReadLe32(s, 8), ReadLe32(s, 12));
    data := BlockRequest(s, 0, CopyClient.BlockSize(info.len, 0))[..BLOCK_REQUEST_SIZE];
  }

  /** The two ways on from a block. */
  lemma BlockGoesOn(w: World, k: Talk) returns (r: World)
    requires Answered(w) && w.cli.phase == Awaiting(k) && k.Reading?
    ensures Carries(w, [Go(false)], r) && r.cli.commands == w.cli.commands && r.cli.results == w.cli.results
      && Calling(r)
    ensures if k.pos + CopyClient.BLOCK < k.info.len then
        && r.cli.phase.Sending? && r.cli.phase.talk.Reading? && r.cli.phase.talk.name == k.name
        && r.cli.phase.talk.info == k.info && r.cli.phase.talk.pos == k.pos + CopyClient.BLOCK
      else r.cli.phase.Closing? && r.cli.phase.result.Copied? && r.cli.phase.result.name == k.name
  {
    ShapeOf(w);
    assert w.rx.arc.Idle? by { hide Inv, R.Inv, TG.Ready; }
    AwaitingOk(w, k);
    OneCarries(w, Go(false));
    r := Step(w, Go(false));
    CarriesInv(w, [Go(false)], r);
    hide Inv, Carries, TG.Ready, RG.Quiet, T.Begin, ReadLe32, Overlay, BlockRequest, CopyClient.BlockSize, Shape,
      T.Shape,
      CopyClient.WriteAt, CopyClient.Advance, CopyClient.GoesOn;
    PipeTalk.NextBlock(k.info.len, k.pos, k.size);
    var data := BlockContinues(w, k, r);
    CallsAgain(w, r, data);
  }

  lemma BlockContinues(w: World, k: Talk, r: World) returns (data: seq<Byte>)
    requires Shape(w) && w.cli.phase == Awaiting(k) && k.Reading? && w.rx.arc.Idle? && |w.rx.received| > 0
    requires r == Step(w, Go(false))
    ensures r.cli.commands == w.cli.commands && r.cli.results == w.cli.results && CallMade(w, r, data)
    ensures var next := CopyClient.Advance(k.pos);
      if CopyClient.GoesOn(k.info.len, next) then
        && r.cli.phase.Sending? && r.cli.phase.talk.Reading? && r.cli.phase.talk.name == k.name
        && r.cli.phase.talk.info == k.info && r.cli.phase.talk.pos == next
      else r.cli.phase.Closing? && r.cli.phase.result.Copied? && r.cli.phase.result.name == k.name
  {
    var s := Overlay(w.cli.scratch, w.rx.received[|w.rx.received| - 1].payload);
    hide T.Begin, ReadLe32, Overlay, BlockRequest, CopyClient.BlockSize, T.Shape, R.Shape, CopyClient.WriteAt,
      CopyClient.Advance, CopyClient.GoesOn, PutBlock;
    var next := CopyClient.Advance(k.pos);
    if CopyClient.GoesOn(k.info.len, next) {
      data := BlockRequest(s, next, CopyClient.BlockSize(k.info.len, next))[..BLOCK_REQUEST_SIZE];
    } else {
      data := PutBlock(s, 0, [4])[..1];
    }
  }

  // ---- Whole commands

  /** From a block request just entered to the Close just entered. */
  lemma {:induction false} Blocks(w: World) returns (acts: seq<Action>, r: World)
    requires Calling(w) && w.cli.phase.Sending? && w.cli.phase.talk.Reading?
    ensures Carries(w, acts, r) && Calling(r) && r.cli.commands == w.cli.commands && r.cli.results == w.cli.results
    ensures r.cli.phase.Closing? && r.cli.phase.result.Copied? && r.cli.phase.result.name == w.cli.phase.talk.name
    decreases w.cli.phase.talk.info.len - w.cli.phase.talk.pos
  {
    var k := w.cli.phase.talk;
    assert Inv(w) by { hide Inv, TG.Entered, RG.Quiet; }
    SendingOk(w, k);
    hide Calling, Inv, Carries, Answered, CopyClient.BlockSize, Copyable;
    var ask, m := Exchanges(w);
    var n := BlockGoesOn(m, k);
    Then(w, ask, m, [Go(false)], n);
    acts, r := ask + [Go(false)], n;
    if n.cli.phase.Sending? {
      var rest;
      rest, r := Blocks(n);
      Then(w, acts, n, rest, r);
      acts := acts + rest;
    }
  }

  /** The Close, and the prompt again. */
  lemma Prompts(w: World) returns (acts: seq<Action>, r: World)
    requires Calling(w) && w.cli.phase.Closing?
    ensures Carries(w, acts, r) && Called(r) && r.cli.phase.Prompt? && r.cli.commands == w.cli.commands
    ensures r.cli.results == w.cli.results + [w.cli.phase.result]
  {
    var m;
    acts, m := Sends(w);
    r := ClosingEnds(m);
    hide Calling, Called, Inv, Carries;
    Then(w, acts, m, [Go(false)], r);
    acts := acts + [Go(false)];
  }

  lemma ClosingEnds(m: World) returns (r: World)
    requires Called(m) && m.cli.phase.Closing?
    ensures Carries(m, [Go(false)], r) && Called(r)
    ensures r.cli == m.cli.(phase := Prompt, results := m.cli.results + [m.cli.phase.result])
  {
    ShapeOf(m);
    assert m.tx.arc.Idle? by { hide Inv, T.Inv, Frames, RG.Quiet; }
    hide Inv, Carries, TG.Ready, RG.Quiet, Shape, Frames;
    OneCarries(m, Go(false));
    r := Step(m, Go(false));
    GoFromClosing(m, m.cli.phase.result);
    hide Step;
    CarriesInv(m, [Go(false)], r);
  }

  /** The server reads the Close. */
  lemma Settles(w: World) returns (acts: seq<Action>, r: World)
    requires Called(w) && w.cli.phase.Prompt?
    ensures Carries(w, acts, r) && Calm(r) && r.cli == w.cli
  {
    acts, r := ServerReads(w);
    CarriesInv(w, acts, r);
    var h := Handle(w.files, w.srv.host, Sent(w)[|Sent(w)| - 1]);
    hide Carries, Handle, TG.Ready, Serve, Sent, Inv, Frames, Replying;
    GivenCount(w, r, h);
    NoMoreGiven(r);
  }

  lemma GivenCount(w: World, r: World, h: Reaction)
    requires RG.Quiet(w.rx) && Replying(w, r, h)
    ensures r.rx.received == w.rx.received && |w.rx.given| == |w.rx.received|
    ensures if h.reply.Some? then |r.rx.given| == |w.rx.given| + 1 else r.rx == w.rx
  {
    hide R.Inv, Frame;
  }

  /** At the prompt the server has given no more than has been received. */
  lemma NoMoreGiven(r: World)
    requires Inv(r) && r.cli.phase.Prompt?
    ensures |r.rx.given| <= |r.rx.received|
  {
    DispatchedPrefix(r.tx, r.srv);
    CountPrefix(r.srv.dispatched, Sent(r));
    hide TxOk, RxOk, UpOk, Conversation, ResultsOk, T.Shape, R.Shape, CountExpected, Sent, Handle;
  }

  lemma Commands(w: World, name: seq<Byte>) returns (r: World)
    requires Inv(w) && w.cli.phase.Prompt? && NameOk(name) && Copyable(w.files, name)
    ensures Carries(w, [Command(name)], r) && r.cli.phase == Sending(Opening(name))
    ensures r.cli.commands == w.cli.commands + 1 && r.cli.results == w.cli.results
    ensures exists data :: CallMade(w, r, data)
  {
    ShapeOf(w);
    hide Inv, Carries, Copyable, Shape, NameOk;
    OneCarries(w, Command(name));
    r := Step(w, Command(name));
    var data := CommandMade(w, name);
  }

  lemma CommandMade(w: World, name: seq<Byte>) returns (data: seq<Byte>)
    requires Shape(w) && w.cli.phase.Prompt? && NameOk(name)
    ensures var r := Step(w, Command(name));
      && CallMade(w, r, data) && r.cli.phase == Sending(Opening(name))
      && r.cli.commands == w.cli.commands + 1 && r.cli.results == w.cli.results
  {
    hide OpenRequest, T.Begin, T.Shape, R.Shape;
    data := OpenRequest(w.cli.scratch, name)[..OPEN_SIZE];
  }

  /** A command begun and carried on until the Close is under way, or done if the file is not there. */
  lemma Opens(w: World, name: seq<Byte>) returns (acts: seq<Action>, r: World)
    requires Calm(w) && NameOk(name) && Copyable(w.files, name)
    ensures Carries(w, acts, r) && r.cli.commands == w.cli.commands + 1
    ensures name !in w.files.named ==> Calm(r) && r.cli.results == w.cli.results + [NotOpened(name)]
    ensures name in w.files.named ==>
      && Calling(r) && r.cli.results == w.cli.results
      && r.cli.phase.Closing? && r.cli.phase.result.Copied? && r.cli.phase.result.name == name
  {
    var b := Commands(w, name);
    CarriesInv(w, [Command(name)], b);
    var data :| CallMade(w, b, data);
    CallsAgain(w, b, data);
    hide Calling, Inv, Carries, Answered, Calm, Copyable, CallMade;
    var ask, m := Exchanges(b);
    Then(w, [Command(name)], b, ask, m);
    var n := OpenGoesOn(m, name);
    acts, r := [Command(name)] + ask, n;
    CarriesFiles(w, acts, m);
    Then(w, acts, m, [Go(false)], n);
    acts := acts + [Go(false)];
    if name in w.files.named {
      var rest;
      rest, r := Blocks(n);
      Then(w, acts, n, rest, r);
      acts := acts + rest;
    }
  }

  lemma CarriesFiles(w: World, acts: seq<Action>, r: World)
    requires Carries(w, acts, r)
    ensures r.files == w.files && r.form == w.form
  {}

  /** Every command comes to its end: the file copied, or reported missing. */
  lemma CommandCompletes(w: World, name: seq<Byte>) returns (acts: seq<Action>, r: World, x: Result)
    requires Calm(w) && |name| <= 255 && 0 !in name && Copyable(w.files, name)
    ensures Carries(w, acts, r) && Calm(r) && r.cli.commands == w.cli.commands + 1
    ensures r.cli.results == w.cli.results + [x] && Outcome(w.files, name, x)
  {
    acts, r := Opens(w, name);
    hide Calling, Inv, Calm, Carries, Called;
    if name in w.files.named {
      x := r.cli.phase.result;
      var close, m := Prompts(r);
      var read, n := Settles(m);
      Then(w, acts, r, close, m);
      Then(w, acts + close, m, read, n);
      acts, r := acts + close + read, n;
      CarriesInv(w, acts, r);
      CarriesFiles(w, acts, r);
      LastResult(r, w.cli.results, x);
    } else {
      x := NotOpened(name);
    }
  }

  predicate Outcomes(files: Files, names: seq<seq<Byte>>, rs: seq<Result>) {
    |rs| == |names| && forall i :: 0 <= i < |rs| ==> Outcome(files, names[i], rs[i])
  }

  predicate AllNamed(files: Files, names: seq<seq<Byte>>) {
    forall i :: 0 <= i < |names| ==> |names[i]| <= 255 && 0 !in names[i] && Copyable(files, names[i])
  }

  lemma {:induction false} CommandsComplete(w: World, names: seq<seq<Byte>>)
    returns (acts: seq<Action>, r: World, rs: seq<Result>)
    requires Calm(w) && AllNamed(w.files, names)
    ensures Carries(w, acts, r) && Calm(r) && r.cli.commands == w.cli.commands + |names|
    ensures r.cli.results == w.cli.results + rs && Outcomes(w.files, names, rs)
    decreases |names|
  {
    hide Calm, Carries, Outcome, Copyable, NameOk;
    if |names| == 0 {
      acts, r, rs := [], w, [];
      Stays(w);
    } else {
      var x, rest, more;
      var m;
      acts, m, x := CommandCompletes(w, names[0]);
      CarriesFiles(w, acts, m);
      rest, r, more := CommandsComplete(m, names[1..]);
      Then(w, acts, m, rest, r);
      acts, rs := acts + rest, [x] + more;
      assert w.cli.results + ([x] + more) == (w.cli.results + [x]) + more;
    }
  }

  lemma Stays(w: World)
    requires Calm(w)
    ensures Carries(w, [], w)
  {
    ShapeOf(w);
    hide Inv, Shape;
  }

  lemma InitialCalm(w: World)
    requires Initial(w)
    ensures Calm(w)
  {
    InitialInv(w);
    TxParts(w);
    R.InitialInv(w.rx);
    hide Inv, T.Inv, R.Inv, W.WireExact, T.Shape, R.Shape, Shape;
    assert T.Carried(w.tx.calls) == [];
    R.NoFrames();
  }

  /** From power-up, with either form of the subtraction: for any list of names there is a run in which
      every command comes to its end with the right outcome, every file that is there copied whole. */
  lemma AllCommandsComplete(w: World, names: seq<seq<Byte>>) returns (acts: seq<Action>)
    requires Initial(w) && AllNamed(w.files, names)
    ensures AllCopyable(w.files, acts) && Spared(w, acts)
    ensures var r := Run(w, acts);
      r.cli.commands == |names| && r.cli.phase.Prompt? && Outcomes(w.files, names, r.cli.results)
  {
    InitialCalm(w);
    assert w.cli.commands == 0 && w.cli.results == [];
    hide Initial, Inv, Run, Spared, AllCopyable, Outcome, Shape;
    var r, rs;
    acts, r, rs := CommandsComplete(w, names);
    assert [] + rs == rs;
  }

  // ---- As written, a second command can fail

  /** Two frames that the server has not read. */
  predicate TwoUnread(w: World) {
    && Inv(w) && TG.Ready(w.tx) && w.srv.held == [] && |w.tx.calls| == |w.srv.dispatched| + 2
    && w.srv.read <= |w.tx.wire| && w.tx.wire[..w.srv.read] == Frames(w.srv.dispatched)
  }

  /** With the Close unread the next command is typed, and its Open goes out. */
  lemma OpensBehind(w: World, name: seq<Byte>) returns (acts: seq<Action>, r: World)
    requires Called(w) && w.cli.phase.Prompt? && NameOk(name) && Copyable(w.files, name)
    ensures Carries(w, acts, r) && TwoUnread(r) && r.cli.commands == w.cli.commands + 1
  {
    hide Inv, TG.Ready, TG.Entered, RG.Quiet, Frames, Carries, CallMade, NameOk, Copyable;
    var b := Commands(w, name);
    CarriesInv(w, [Command(name)], b);
    var data :| CallMade(w, b, data);
    EntersTx(w, b, data);
    MadeServer(w, b, data);
    var rest;
    rest, r := Transmits(b);
    PrefixOf(w.tx.wire, w.srv.read, r.tx.wire);
    Then(w, [Command(name)], b, rest, r);
    acts := [Command(name)] + rest;
  }

  lemma MadeServer(w: World, b: World, data: seq<Byte>)
    requires CallMade(w, b, data)
    ensures b.srv == w.srv
  {}

  lemma LastTwo(w: World) returns (p: Packet, q: Packet)
    requires TwoUnread(w)
    ensures RequestOk(p) && RequestOk(q) && w.tx.wire[w.srv.read..] == Frame(p) + Frame(q)
  {
    OnWire(w);
    var ds, n := w.srv.dispatched, |w.srv.dispatched|;
    assert RequestOk(Sent(w)[n]) && RequestOk(Sent(w)[n + 1]) by { hide Inv, Frames, TG.Ready, RequestOk, Sent; }
    p, q := Sent(w)[n], Sent(w)[n + 1];
    hide Inv, Frames, Frame, TG.Ready, RequestOk, RequestsOk;
    TwoMore(ds, Sent(w), p, q);
    Behind(w.tx.wire, w.srv.read, Frames(ds), Frame(p) + Frame(q));
  }

  lemma TwoMore(ds: seq<Packet>, ps: seq<Packet>, p: Packet, q: Packet)
    requires ds <= ps && |ps| == |ds| + 2 && p == ps[|ds|] && q == ps[|ds| + 1]
    ensures Frames(ps) == Frames(ds) + (Frame(p) + Frame(q))
  {
    hide Frames, Frame;
    assert ps == ds + [p] + [q];
    FramesSnoc(ds, p);
    FramesSnoc(ds + [p], q);
    ConcatAssoc(Frames(ds), Frame(p), Frame(q));
  }

  lemma TwoFrames(p: Packet, q: Packet)
    requires RequestOk(p) && RequestOk(q)
    ensures Server.Surplus(Frame(p) + Frame(q)) && |Frame(p) + Frame(q)| <= Server.BUFFER_SIZE
  {
    RequestSize(p);
    RequestSize(q);
    assert |Frame(p)| == HEADER + |p.payload| && |Frame(q)| == HEADER + |q.payload|;
    hide RequestOk, Frame, FrameLen;
    FrameHeader(p, Frame(q));
  }

  lemma ReadsTwo(w: World)
    requires TwoUnread(w) && w.form.AsWritten?
    ensures Step(w, Read(Server.BUFFER_SIZE)).srv.faulted
  {
    var p, q := LastTwo(w);
    TwoFrames(p, q);
    hide Inv, TG.Ready, Frames, Frame, RequestOk, Server.Surplus;
    assert w.tx.wire[w.srv.read..|w.tx.wire|] == Frame(p) + Frame(q);
    assert Gathered(w, Server.BUFFER_SIZE) == Frame(p) + Frame(q);
    PipeRuns.UnsparedFaults(w, Read(Server.BUFFER_SIZE));
  }

  /** From power-up to the Close and the next Open on the wire, both unread. */
  lemma ReachesTwoUnread(w: World, name: seq<Byte>, other: seq<Byte>) returns (acts: seq<Action>, r: World)
    requires Initial(w) && name in w.files.named
    requires NameOk(name) && Copyable(w.files, name) && NameOk(other) && Copyable(w.files, other)
    ensures Carries(w, acts, r) && TwoUnread(r) && r.cli.commands == 2
  {
    InitialCalm(w);
    assert w.cli.commands == 0;
    hide Initial, Inv, Calm, Calling, Called, Copyable, NameOk, TwoUnread, Carries;
    var open, m := Opens(w, name);
    CarriesFiles(w, open, m);
    var close, n := Prompts(m);
    CarriesFiles(m, close, n);
    var behind;
    behind, r := OpensBehind(n, other);
    Then(w, open, m, close, n);
    Then(w, open + close, n, behind, r);
    acts := open + close + behind;
  }

  /** As the source writes the subtraction, copying any file that is there and then typing any second
      command has, from power-up, a run in which the server takes the Close and the next Open in one
      read, and so runs into it. */
  lemma SecondCommandCanFault(w: World, name: seq<Byte>, other: seq<Byte>) returns (acts: seq<Action>)
    requires Initial(w) && w.form.AsWritten? && name in w.files.named
    requires NameOk(name) && Copyable(w.files, name) && NameOk(other) && Copyable(w.files, other)
    ensures AllCopyable(w.files, acts) && Run(w, acts).cli.commands == 2 && Run(w, acts).srv.faulted
  {
    var before, n := ReachesTwoUnread(w, name, other);
    var read := [Read(Server.BUFFER_SIZE)];
    acts := before + read;
    ReadsTwo(n);
    OneRead(n);
    PipeRuns.ReadKeepsClient(n, Server.BUFFER_SIZE);
    hide Initial, Run, Spared, AllCopyable, Shape, Step, TwoUnread, Inv, Copyable, NameOk;
    RunAppend(w, before, read);
    Both(w.files, before, read);
  }

  lemma OneRead(w: World)
    requires Shape(w)
    ensures var read := [Read(Server.BUFFER_SIZE)];
      Run(w, read) == Step(w, read[0]) && AllCopyable(w.files, read)
  {
    hide Step, Shape;
    assert [Read(Server.BUFFER_SIZE)][1..] == [];
  }

  /** Whoever calls pipe_packet_tx: from power-up on a live link, any two calls that fit can both be on
      the wire before the server reads, which is then a read that runs into the subtraction. */
  lemma TwoCallsReachSurplus(s: T.Tx, c: T.Call, d: T.Call) returns (acts: seq<T.Action>)
    requires T.Initial(s) && s.connected && T.Legal(c) && T.Legal(d) && T.Fits(c) && T.Fits(d)
    ensures var wire := T.Run(s, acts).wire;
      && wire == Frames([T.PacketOf(c), T.PacketOf(d)])
      && Server.Surplus(wire) && Server.Reassemble(AsWritten, wire).faulted
  {
    W.InitialWire(s);
    var p, q := T.PacketOf(c), T.PacketOf(d);
    assert s.calls == [] && s.steady;
    hide T.Run, T.Inv, W.WireExact, T.Shape, T.PacketOf;
    var first := TG.CallCompletes(s, c);
    var t := T.Run(s, first);
    var second := TG.CallCompletes(t, d);
    T.RunAppend(s, first, second);
    acts := first + second;
    CarriedTwo(c, d);
    assert t.calls + [d] == [c, d];
    hide T.Carried;
    PipeRuns.SurplusOfTwo(p, q);
  }

  lemma CarriedTwo(c: T.Call, d: T.Call)
    requires T.Fits(c) && T.Fits(d)
    ensures T.Carried([c, d]) == [T.PacketOf(c), T.PacketOf(d)]
  {
    assert [c, d][..1] == [c] && [c][..0] == [];
    assert T.Carried([]) == [] && T.Carried([c]) == [T.PacketOf(c)];
  }
}
