/** No run of the whole pipe is ever stuck: from every state that a run without a fault has reached, the
    command under way can be carried to its end, and the pipe to rest. */
module PipeSettling {
  import opened Bits
  import opened Framing
  import opened Shuffle
  import opened HostChannels
  import opened PipeSystem
  import opened PipeSafety
  import opened PipeProgress
  import CopyClient
  import opened Words
  import PipeReads
  import PipeRuns
  import PipeTalk
  import Server
  import T = TxPipe
  import R = RxPipe
  import W = TxWire
  import TG = TxProgress
  import RG = RxProgress
  import TS = TxSettling
  import RS = RxSettling

  // ---- Every request that expects a reply gets one

  /** The server answers each of the requests sent. */
  predicate AllReplied(w: World) { |Serve(w.files, Fresh(), Sent(w)).replies| == CountExpected(Sent(w)) }

  lemma CallsKept(w: World, a: Action)
    requires Shape(w) && !a.Command? && !a.Go?
    ensures Step(w, a).tx.calls == w.tx.calls && Step(w, a).files == w.files && Step(w, a).cli == w.cli
  {
    PipeRuns.StepLater(w, a);
    if a.Read? { PipeRuns.ReadKeepsClient(w, a.n); ReadTx(w, a.n); }
    hide T.ArcStep, T.PodStep, R.ArcStep, R.PodStep, R.WriteStep, ReadStep, Shape;
  }

  lemma ReadTx(w: World, n: nat)
    requires Shape(w)
    ensures ReadStep(w, n).tx == w.tx
  {
    hide DispatchAll, Server.Reassemble;
    if !w.srv.faulted && Readable(w) {
      var a := Server.Reassemble(w.form, Gathered(w, n));
      PipeRuns.DispatchAllFrame(
        w.(srv := w.srv.(read := w.srv.read + Taken(w, n), held := a.rest, faulted := a.faulted)), a.packets);
    }
  }

  /** The client makes at most one call at a time, to ask for something or to close. */
  predicate OneCall(w: World, r: World) {
    && r.files == w.files && r.rx.received == w.rx.received
    && (r.tx.calls == w.tx.calls
        || (|r.tx.calls| == |w.tx.calls| + 1 && w.tx.calls == r.tx.calls[..|w.tx.calls|]
            && (r.cli.phase.Sending? || r.cli.phase.Closing?) && (w.cli.phase.Awaiting? || w.cli.phase.Prompt?)
            && (w.cli.phase.Awaiting? ==> w.rx.arc.Idle?) && (r.cli.phase.Closing? ==> w.cli.phase.Awaiting?)))
  }

  lemma ClientCalls(w: World, a: Action)
    requires Shape(w) && (a.Command? || a.Go?)
    ensures OneCall(w, Step(w, a))
  {
    match a
    case Command(name) => hide OpenRequest, NameOk, T.Shape, R.Shape;
    case Go(fails) => GoCalls(w, fails);
  }

  lemma GoCalls(w: World, fails: bool)
    requires Shape(w)
    ensures OneCall(w, ClientStep(w, fails))
  {
    if w.cli.phase.Awaiting? && w.rx.arc.Idle? && |w.rx.received| > 0 { RepliedCalls(w, w.cli.phase.talk, fails); }
    hide Replied, T.Shape, R.Shape;
  }

  lemma RepliedCalls(w: World, k: Talk, fails: bool)
    requires Shape(w) && |w.rx.received| > 0
    ensures var r := Replied(w, k, fails);
      && r.files == w.files && r.rx == w.rx
      && (r.tx.calls == w.tx.calls
          || (|r.tx.calls| == |w.tx.calls| + 1 && w.tx.calls == r.tx.calls[..|w.tx.calls|]
              && (r.cli.phase.Sending? || r.cli.phase.Closing?)))
  {
    hide Overlay, BlockRequest, ReadLe32, CopyClient.BlockSize, CopyClient.WriteAt, T.Shape, R.Shape;
  }

  lemma ReplyCounts(files: Files, ps: seq<Packet>, p: Packet)
    requires |Serve(files, Fresh(), ps).replies| == CountExpected(ps)
    requires Expected(p) ==> Handle(files, Serve(files, Fresh(), ps).state, p).reply.Some?
    ensures |Serve(files, Fresh(), ps + [p]).replies| == CountExpected(ps + [p])
  {
    hide Serve, CountExpected, Handle, Expected;
    ServeSnoc(files, Fresh(), ps, p);
  }

  /** A call of the client is one that the server answers, or a Close. */
  lemma CallAnswered(w: World, r: World, p: Packet)
    requires Inv(w) && Inv(r) && OneCall(w, r) && r.tx.calls != w.tx.calls && Sent(r) == Sent(w) + [p]
    ensures Expected(p) ==> Handle(w.files, Serve(w.files, Fresh(), Sent(w)).state, p).reply.Some?
  {
    hide Inv, Serve, Handle, Sent, CountExpected, Expected, TalkOk;
    if r.cli.phase.Sending? {
      InTalk(r, r.cli.phase.talk);
      assert Sent(r)[..|Sent(r)| - 1] == Sent(w);
      Answers(r.files, Serve(w.files, Fresh(), Sent(w)).state, p, r.cli.phase.talk);
    } else {
      Expecting(w);
      Expecting(r);
      ServeSnoc(w.files, Fresh(), Sent(w), p);
    }
  }

  lemma MoreReplied(w: World, r: World)
    requires AllReplied(w) && Inv(w) && Inv(r) && OneCall(w, r)
    ensures AllReplied(r)
  {
    hide Inv, Serve, CountExpected, T.PacketOf, Expected, Handle, W.Packets;
    if r.tx.calls != w.tx.calls {
      var c := r.tx.calls[|w.tx.calls|];
      assert r.tx.calls == w.tx.calls + [c];
      PipeTalk.PacketsSnoc(w.tx.calls, c);
      CallAnswered(w, r, T.PacketOf(c));
      ReplyCounts(w.files, Sent(w), T.PacketOf(c));
    }
  }

  /** The invariant of a run without a fault, with the answer to every request. */
  predicate Alive(w: World) { Inv(w) && AllReplied(w) }

  lemma StepAlive(w: World, a: Action)
    requires Alive(w) && Shape(w) && (a.Command? ==> Copyable(w.files, a.name)) && (w.form.AsWritten? ==> Spares(w, a))
    ensures Alive(Step(w, a))
  {
    PipeRuns.StepInv(w, a);
    if a.Command? || a.Go? {
      ClientCalls(w, a);
      hide Inv, Step, OneCall, AllReplied;
      MoreReplied(w, Step(w, a));
    } else {
      CallsKept(w, a);
      hide Inv, Step, Serve, CountExpected;
    }
  }

  lemma {:induction false} RunAlive(w: World, acts: seq<Action>)
    requires Alive(w) && Shape(w) && AllCopyable(w.files, acts) && (w.form.AsWritten? ==> Spared(w, acts))
    ensures Alive(Run(w, acts))
    decreases |acts|
  {
    hide Alive, Step, Shape, Spares, Copyable;
    if |acts| > 0 {
      PipeRuns.StepLater(w, acts[0]);
      StepAlive(w, acts[0]);
      RunAlive(Step(w, acts[0]), acts[1..]);
    }
  }

  lemma CarriesAlive(w: World, acts: seq<Action>, r: World)
    requires Alive(w) && Carries(w, acts, r)
    ensures Alive(r)
  {
    hide Alive, Run, Spared, AllCopyable, Inv, Shape;
    RunAlive(w, acts);
  }

  // ---- The transmit direction and the server

  lemma TxLive(w: World)
    requires Inv(w)
    ensures TS.Live(w.tx)
  {
    TxParts(w);
    hide RxOk, UpOk, HostOk, Conversation, ResultsOk, Disciplined, R.Shape, T.Shape, T.Inv, W.WireExact;
  }

  /** The client and what it has received are the same. */
  predicate SameClient(w: World, r: World) {
    && r.cli == w.cli && r.tx.calls == w.tx.calls && r.rx.received == w.rx.received && r.rx.arc == w.rx.arc
  }

  lemma TxSettles(w: World) returns (acts: seq<Action>, r: World)
    requires Inv(w)
    ensures Carries(w, acts, r) && SameClient(w, r) && TG.Ready(r.tx)
  {
    ShapeOf(w);
    TxLive(w);
    var ts := TS.CallCanFinish(w.tx);
    acts := LiftTx(ts);
    assert T.Shape(w.tx);
    hide Inv, TS.Live, T.Run, TG.Ready, Run, Shape, T.Shape, Carries;
    LiftTxRun(w, ts);
    PlainCarries(w, acts);
    r := Run(w, acts);
  }

  /** One byte more never brings bytes of a second frame. */
  lemma OneByteSpares(w: World)
    requires Inv(w) && w.srv.read < |w.tx.wire|
    ensures Readable(w) && Taken(w, 1) == 1 && !Server.Surplus(Gathered(w, 1))
  {
    assert TxOk(w.tx) && UpOk(w.tx.wire, w.srv) by {
      hide TxOk, RxOk, UpOk, HostOk, Conversation, ResultsOk, Disciplined, T.Shape, R.Shape;
    }
    hide Inv, Server.Surplus, TxOk, W.Packets, Frames, Decode;
    RequestsCarried(w.tx);
    PipeReads.RestBound(w.tx, w.srv.read);
    OneByteMore(w.tx.wire, w.srv, W.Packets(w.tx.calls));
  }

  lemma OneByteMore(wire: seq<Byte>, srv: Srv, sent: seq<Packet>)
    requires UpOk(wire, srv) && srv.read < |wire| && wire <= Frames(sent) && AllSized(sent) && NoneEmpty(sent)
    ensures !Server.Surplus(srv.held + wire[srv.read..srv.read + 1])
  {
    hide Frames, Decode, Server.Surplus;
    PrefixOf(wire, srv.read, Frames(sent));
    var t := DecodeRest(wire[..srv.read], sent, Server.NEED);
    assert t[0] == wire[srv.read];
    OneByte(srv.held, wire[srv.read], t, sent[|srv.dispatched|..]);
    assert wire[srv.read..srv.read + 1] == [wire[srv.read]];
  }

  lemma OneByte(held: seq<Byte>, b: Byte, t: seq<Byte>, gs: seq<Packet>)
    requires !Complete(held, Server.NEED) && held + t == Frames(gs) && AllSized(gs) && NoneEmpty(gs)
    requires |t| > 0 && t[0] == b
    ensures !Server.Surplus(held + [b])
  {
    hide Frames;
    assert t == [b] + t[1..];
    assert (held + [b]) + t[1..] == held + t;
    if |held| + 1 >= Server.NEED {
      NextHeader(held + [b], t[1..], gs);
    }
  }

  lemma OneByteRead(w: World)
    requires Inv(w) && w.srv.read < |w.tx.wire|
    ensures var r := Step(w, Read(1));
      Carries(w, [Read(1)], r) && SameClient(w, r) && r.tx == w.tx && r.srv.read == w.srv.read + 1
  {
    hide Inv, Base, Carries, Server.Surplus, Gathered, Taken, ReadStep, Shape, Readable;
    ShapeOf(w);
    OneByteSpares(w);
    NotFaulted(w);
    assert Spares(w, Read(1));
    assert Step(w, Read(1)) == ReadStep(w, 1);
    hide Spares, Step;
    PipeRuns.InvBase(w);
    Owes(w);
    PipeReads.ReadBase(w, 1);
    OneCarries(w, Read(1));
    ReadMoves(w, 1);
  }

  lemma NotFaulted(w: World)
    requires Inv(w)
    ensures !w.srv.faulted
  {
    hide TxOk, RxOk, HostOk, Conversation, ResultsOk, Disciplined, T.Shape, R.Shape;
  }

  lemma Owes(w: World)
    requires Inv(w)
    ensures PipeReads.AtMostOneOwed(w)
  {
    PipeReads.OneOwed(w);
    hide Inv, CountExpected, Sent;
  }

  lemma ReadMoves(w: World, n: nat)
    requires Shape(w) && !w.srv.faulted && Readable(w)
    ensures ReadStep(w, n).srv.read == w.srv.read + Taken(w, n)
  {
    hide DispatchAll, Server.Reassemble, Taken;
    var a := Server.Reassemble(w.form, Gathered(w, n));
    DispatchAllRead(w.(srv := w.srv.(read := w.srv.read + Taken(w, n), held := a.rest, faulted := a.faulted)),
      a.packets);
  }

  lemma {:induction false} DispatchAllRead(w: World, ps: seq<Packet>)
    requires Shape(w)
    ensures DispatchAll(w, ps).srv.read == w.srv.read
    decreases |ps|
  {
    hide Handle, R.SendStep, Shape;
    if |ps| > 0 { DispatchAllRead(Dispatch(w, ps[0]), ps[1..]); }
  }

  /** The server catches up, one byte at a time. */
  lemma {:induction false} ServerCatchesUp(w: World) returns (acts: seq<Action>, r: World)
    requires Inv(w)
    ensures Carries(w, acts, r) && SameClient(w, r) && r.tx == w.tx && r.srv.read == |w.tx.wire|
    decreases |w.tx.wire| - w.srv.read
  {
    assert w.srv.read <= |w.tx.wire| by {
      hide TxOk, RxOk, HostOk, Conversation, ResultsOk, Disciplined, T.Shape, R.Shape;
    }
    if w.srv.read == |w.tx.wire| {
      acts, r := [], w;
      ShapeOf(w);
      hide Inv, Shape;
    } else {
      hide Inv, Carries;
      OneByteRead(w);
      var t := Step(w, Read(1));
      CarriesInv(w, [Read(1)], t);
      hide Step;
      var rest;
      rest, r := ServerCatchesUp(t);
      Then(w, [Read(1)], t, rest, r);
      acts := [Read(1)] + rest;
    }
  }

  /** The call under way retired, and the server up to date. */
  predicate Drained(w: World) { Inv(w) && TG.Ready(w.tx) && w.srv.read == |w.tx.wire| }

  lemma Drains(w: World) returns (acts: seq<Action>, r: World)
    requires Inv(w)
    ensures Carries(w, acts, r) && SameClient(w, r) && Drained(r)
  {
    hide Inv, Carries, TG.Ready;
    var send, m := TxSettles(w);
    CarriesInv(w, send, m);
    var read;
    read, r := ServerCatchesUp(m);
    CarriesInv(m, read, r);
    Then(w, send, m, read, r);
    acts := send + read;
  }

  // ---- The receive direction

  lemma RxLive(w: World)
    requires Inv(w)
    ensures RS.Live(w.rx)
  {
    RxParts(w);
    hide R.Inv, R.Solo;
  }

  lemma RxSettles(w: World) returns (acts: seq<Action>, r: World)
    requires Drained(w) && (RS.Owed(w.rx) || RS.AllReceived(w.rx))
    ensures Carries(w, acts, r) && Drained(r) && r == w.(rx := r.rx) && RG.Quiet(r.rx) && r.rx.given == w.rx.given
  {
    ShapeOf(w);
    var rs := RS.PacketCanArrive(w.rx);
    acts := LiftRx(rs);
    hide Inv, RS.Owed, RS.AllReceived, R.Run, RG.Quiet, TG.Ready, Run, Shape, Carries;
    LiftRxRun(w, rs);
    PlainCarries(w, acts);
    r := Run(w, acts);
    CarriesInv(w, acts, r);
  }

  /** All requests answered, the server has given a reply to each that expects one. */
  lemma AllGiven(w: World)
    requires Drained(w) && AllReplied(w)
    ensures |w.rx.given| == CountExpected(Sent(w)) && w.rx.received <= w.rx.given
  {
    assert w.tx.wire == Frames(T.Carried(w.tx.calls)) by { hide Inv, T.Inv, W.WireExact, Frames; }
    UpToDate(w);
    InvOrder(w);
    assert HostOk(w.files, w.srv, w.rx.given) by {
      hide TxOk, RxOk, UpOk, HostOk, Conversation, ResultsOk, Disciplined, T.Shape, R.Shape;
    }
    hide Inv, TG.Ready, Serve, CountExpected, Sent;
  }

  lemma InvOrder(w: World)
    requires Inv(w)
    ensures w.rx.received <= w.rx.given
  {
    PipeRuns.InvBase(w);
    hide Inv, Base;
    PipeRuns.BaseOrder(w);
  }

  lemma Expecting(w: World)
    requires Inv(w)
    ensures Disciplined(CountExpected(Sent(w)), |w.rx.received|, w.cli.phase, w.tx.arc.Idle?, w.rx.arc.Idle?)
  {
    hide Base, Conversation, Disciplined, CountExpected, Sent;
  }

  // ---- The command under way

  /** A run that ends in a calm pipe, with the results extended by n. */
  predicate Ends(w: World, acts: seq<Action>, r: World, n: nat) {
    && Carries(w, acts, r) && Calm(r) && r.cli.commands == w.cli.commands
    && w.cli.results <= r.cli.results && |r.cli.results| == |w.cli.results| + n
  }

  lemma PromptEnds(w: World) returns (acts: seq<Action>, r: World)
    requires Alive(w) && Drained(w) && w.cli.phase.Prompt?
    ensures Ends(w, acts, r, 0) && r.cli == w.cli
  {
    Expecting(w);
    AllGiven(w);
    RxLive(w);
    hide Inv, AllReplied, RS.Live, Carries, TG.Ready, RG.Quiet, CountExpected;
    assert w.rx.received == w.rx.given;
    acts, r := RxSettles(w);
  }

  lemma ClosingGoes(w: World) returns (r: World)
    requires Drained(w) && w.cli.phase.Closing?
    ensures Carries(w, [Go(false)], r) && Drained(r)
    ensures r.cli == w.cli.(phase := Prompt, results := w.cli.results + [w.cli.phase.result])
  {
    ShapeOf(w);
    assert w.tx.arc.Idle? by { hide Inv, T.Inv, Frames; }
    hide Inv, Carries, TG.Ready, Shape;
    OneCarries(w, Go(false));
    r := Step(w, Go(false));
    GoFromClosing(w, w.cli.phase.result);
    hide Step;
    CarriesInv(w, [Go(false)], r);
  }

  lemma ClosingDone(w: World) returns (acts: seq<Action>, r: World)
    requires Alive(w) && Drained(w) && w.cli.phase.Closing?
    ensures Ends(w, acts, r, 1)
  {
    hide Inv, AllReplied, Carries, Drained, Calm;
    var m := ClosingGoes(w);
    CarriesAlive(w, [Go(false)], m);
    var rest;
    rest, r := PromptEnds(m);
    Then(w, [Go(false)], m, rest, r);
    acts := [Go(false)] + rest;
  }

  /** The client holds its reply, at a drained pipe. */
  lemma RepliesIn(w: World) returns (acts: seq<Action>, r: World)
    requires Alive(w) && Drained(w) && w.cli.phase.Awaiting?
    ensures Carries(w, acts, r) && Answered(r) && r.cli == w.cli
  {
    Expecting(w);
    AllGiven(w);
    RxLive(w);
    LastExpected(w, w.cli.phase.talk);
    hide Inv, AllReplied, RS.Live, Carries, TG.Ready, RG.Quiet, CountExpected;
    assert RS.Owed(w.rx) || RS.AllReceived(w.rx);
    acts, r := RxSettles(w);
    QuietAll(r.rx);
  }

  lemma QuietAll(rx: R.Rx)
    requires RG.Quiet(rx)
    ensures rx.received == rx.given
  {
    hide R.Inv;
  }

  lemma LastExpected(w: World, k: Talk)
    requires Inv(w) && w.cli.phase == Awaiting(k)
    ensures CountExpected(Sent(w)) > 0
  {
    assert |Sent(w)| > 0 &&
      TalkOk(w.files, Serve(w.files, Fresh(), Sent(w)[..|Sent(w)| - 1]).state, Sent(w)[|Sent(w)| - 1], k) by {
      hide TxOk, RxOk, UpOk, HostOk, ResultsOk, Disciplined, T.Shape, R.Shape, TalkOk, Serve, Sent;
    }
    Answers(w.files, Serve(w.files, Fresh(), Sent(w)[..|Sent(w)| - 1]).state, Sent(w)[|Sent(w)| - 1], k);
    hide Inv, TalkOk, Serve, Sent, Handle;
  }

  /** The Close just entered, the command ends. */
  lemma CloseDone(w: World) returns (acts: seq<Action>, r: World)
    requires Calling(w) && w.cli.phase.Closing?
    ensures Ends(w, acts, r, 1)
  {
    hide Carries, Calling, Calm, Called;
    var close, c := Prompts(w);
    var read;
    read, r := Settles(c);
    Then(w, close, c, read, r);
    acts := close + read;
  }

  /** A block request just entered, the blocks are read and the command ends. */
  lemma BlocksEnd(w: World) returns (acts: seq<Action>, r: World)
    requires Calling(w) && w.cli.phase.Sending? && w.cli.phase.talk.Reading?
    ensures Ends(w, acts, r, 1)
  {
    hide Carries, Calling, Calm;
    var ask, m := Blocks(w);
    var rest;
    rest, r := CloseDone(m);
    Then(w, ask, m, rest, r);
    acts := ask + rest;
  }

  lemma EndsThen(w: World, m: World, rest: seq<Action>, r: World)
    requires Carries(w, [Go(false)], m) && Ends(m, rest, r, 1)
    requires m.cli.commands == w.cli.commands && m.cli.results == w.cli.results
    ensures Ends(w, [Go(false)] + rest, r, 1)
  {
    hide Carries, Calm;
    Then(w, [Go(false)], m, rest, r);
  }

  lemma OpenDone(w: World, name: seq<Byte>) returns (acts: seq<Action>, r: World)
    requires Answered(w) && w.cli.phase == Awaiting(Opening(name))
    ensures Ends(w, acts, r, 1)
  {
    hide Answered, Carries, Calling, Calm;
    var n := OpenGoesOn(w, name);
    if name in w.files.named {
      hide Ends;
      var rest;
      rest, r := BlocksEnd(n);
      EndsThen(w, n, rest, r);
      acts := [Go(false)] + rest;
    } else {
      acts, r := [Go(false)], n;
    }
  }

  lemma BlockDone(w: World, k: Talk) returns (acts: seq<Action>, r: World)
    requires Answered(w) && w.cli.phase == Awaiting(k) && k.Reading?
    ensures Ends(w, acts, r, 1)
  {
    hide Answered, Carries, Calling, Ends;
    var n := BlockGoesOn(w, k);
    var rest;
    if n.cli.phase.Sending? { rest, r := BlocksEnd(n); } else { rest, r := CloseDone(n); }
    EndsThen(w, n, rest, r);
    acts := [Go(false)] + rest;
  }

  /** From the reply in hand the rest of the command goes as any command does. */
  lemma AnsweredDone(w: World) returns (acts: seq<Action>, r: World)
    requires Answered(w) && w.cli.phase.Awaiting?
    ensures Ends(w, acts, r, 1)
  {
    hide Answered, Ends;
    var k := w.cli.phase.talk;
    if k.Opening? { acts, r := OpenDone(w, k.name); } else { acts, r := BlockDone(w, k); }
  }

  lemma AwaitingDone(w: World) returns (acts: seq<Action>, r: World)
    requires Alive(w) && Drained(w) && w.cli.phase.Awaiting?
    ensures Ends(w, acts, r, 1)
  {
    hide Alive, Drained, Answered, Carries, Calm;
    var m;
    acts, m := RepliesIn(w);
    var rest;
    rest, r := AnsweredDone(m);
    Then(w, acts, m, rest, r);
    acts := acts + rest;
  }

  lemma SendingGoes(w: World) returns (r: World)
    requires Drained(w) && w.cli.phase.Sending?
    ensures Carries(w, [Go(false)], r) && Drained(r)
    ensures r.cli == w.cli.(phase := Awaiting(w.cli.phase.talk))
  {
    Expecting(w);
    assert w.tx.arc.Idle? by { hide Inv, T.Inv, Frames; }
    hide Inv, Carries, TG.Ready, CountExpected;
    r := Polls(w, w.cli.phase.talk);
    CarriesInv(w, [Go(false)], r);
  }

  lemma SendingDone(w: World) returns (acts: seq<Action>, r: World)
    requires Alive(w) && Drained(w) && w.cli.phase.Sending?
    ensures Ends(w, acts, r, 1)
  {
    hide Alive, Drained, Carries, Calm;
    var m := SendingGoes(w);
    CarriesAlive(w, [Go(false)], m);
    var rest;
    rest, r := AwaitingDone(m);
    Then(w, [Go(false)], m, rest, r);
    acts := [Go(false)] + rest;
  }

  /** From every state that a run without a fault can be in, with either form of the subtraction, there is
      a way on that meets no fault, brings the command under way to its result, and the pipe to rest. */
  lemma CommandCanEnd(w: World) returns (acts: seq<Action>, r: World)
    requires Alive(w)
    ensures Ends(w, acts, r, if w.cli.phase.Prompt? then 0 else 1)
  {
    assert Inv(w) by { hide Inv, AllReplied; }
    hide Alive, Inv, Drained, Carries, Calm;
    var m;
    acts, m := Drains(w);
    CarriesAlive(w, acts, m);
    var rest;
    match m.cli.phase {
      case Prompt => rest, r := PromptEnds(m);
      case Sending(k) => rest, r := SendingDone(m);
      case Awaiting(k) => rest, r := AwaitingDone(m);
      case Closing(x) => rest, r := ClosingDone(m);
    }
    Then(w, acts, m, rest, r);
    acts := acts + rest;
  }

  /** Whatever has happened since power-up, short of the fault that the subtraction as written can lead to:
      no command is stuck, and every next one can be carried through after it. */
  lemma NeverStuck(w: World, acts: seq<Action>, name: seq<Byte>) returns (more: seq<Action>, next: seq<Action>)
    requires Initial(w) && AllCopyable(w.files, acts) && (w.form.Intended? || Spared(w, acts))
    requires |name| <= 255 && 0 !in name && Copyable(w.files, name)
    ensures var s := Run(w, acts);
      var r := Run(s, more);
      var q := Run(r, next);
      && Spared(s, more) && Calm(r) && r.cli.commands == s.cli.commands && s.cli.results <= r.cli.results
      && |r.cli.results| == |s.cli.results| + (if s.cli.phase.Prompt? then 0 else 1)
      && Spared(r, next) && Calm(q) && q.cli.commands == s.cli.commands + 1
      && |q.cli.results| == |r.cli.results| + 1 && r.cli.results <= q.cli.results
      && Outcome(w.files, name, q.cli.results[|r.cli.results|])
  {
    InitialInv(w);
    assert AllReplied(w);
    PipeRuns.RunLater(w, acts);
    hide Initial, Inv, AllReplied, Run, Spared, AllCopyable, Calm, Outcome, Copyable, Shape;
    RunAlive(w, acts);
    var s := Run(w, acts);
    var r;
    more, r := CommandCanEnd(s);
    CarriesFiles(s, more, r);
    var q, x;
    next, q, x := CommandCompletes(r, name);
  }
}
