/** What is on the wire once the link has been down: frames cut short wherever a transfer was abandoned,
    and with that streams that the decoder on the other side does not find its way in. */
module TxDrops {
  import opened Bits
  import opened PoduleRegs
  import opened Framing
  import opened TxPipe
  import opened TxPoll
  import opened Sequences
  import W = TxWire
  import G = TxProgress

  // ---- The wire as pieces of frames

  /** Bytes from the front of the frame of the call of that number. */
  datatype Piece = Piece(call: nat, bytes: seq<Byte>)

  function Concat(ps: seq<Piece>): seq<Byte> {
    if |ps| == 0 then [] else Concat(ps[..|ps| - 1]) + ps[|ps| - 1].bytes
  }

  predicate PieceOk(calls: seq<Call>, p: Piece) {
    p.call < |calls| && Fits(calls[p.call]) && p.bytes <= Frame(PacketOf(calls[p.call]))
  }

  predicate Whole(calls: seq<Call>, p: Piece) {
    p.call < |calls| && p.bytes == Frame(PacketOf(calls[p.call]))
  }

  /** Each piece is the front of a call's frame; they come in the order of the calls, and nothing of a call
      follows its whole frame. */
  predicate Chain(calls: seq<Call>, ps: seq<Piece>) {
    && (forall i :: 0 <= i < |ps| ==> PieceOk(calls, ps[i]))
    && (forall i, j :: 0 <= i < j < |ps| ==>
          ps[i].call <= ps[j].call && (Whole(calls, ps[i]) ==> ps[i].call < ps[j].call))
  }

  /** The bytes of the transfer under way. */
  function Sending(s: Tx): seq<Byte>
    requires Shape(s)
  {
    if s.ongoing then s.txBuf[..s.pos] else []
  }

  /** All pieces are of retired calls and of the pending one, which is not yet out as a whole unless the
      podule is retiring it. */
  predicate UpTo(calls: seq<Call>, ps: seq<Piece>, retired: nat, out: bool) {
    forall i :: 0 <= i < |ps| ==> ps[i].call <= retired && (ps[i].call == retired && Whole(calls, ps[i]) ==> out)
  }

  predicate Out(s: Tx) { s.pod.Retiring? || s.pod.Clearing? }

  predicate InPieces(s: Tx, ps: seq<Piece>)
    requires Shape(s)
  {
    Chain(s.calls, ps) && UpTo(s.calls, ps, s.retired, Out(s)) && s.wire == Concat(ps) + Sending(s)
  }

  lemma ConcatSnoc(ps: seq<Piece>, p: Piece)
    ensures Concat(ps + [p]) == Concat(ps) + p.bytes
  {
    assert (ps + [p])[..|ps|] == ps;
  }

  lemma ChainSnoc(calls: seq<Call>, ps: seq<Piece>, p: Piece, out: bool)
    requires Chain(calls, ps) && PieceOk(calls, p) && UpTo(calls, ps, p.call, false) && (Whole(calls, p) ==> out)
    ensures Chain(calls, ps + [p]) && UpTo(calls, ps + [p], p.call, out)
  {
    hide PieceOk, Whole;
  }

  lemma ChainGrows(calls: seq<Call>, c: Call, ps: seq<Piece>, retired: nat, out: bool)
    requires Chain(calls, ps) && UpTo(calls, ps, retired, out)
    ensures Chain(calls + [c], ps) && UpTo(calls + [c], ps, retired, out)
  {
    hide Fits;
    assert forall i :: 0 <= i < |ps| ==> PieceOk(calls, ps[i]);
    forall i | 0 <= i < |ps|
      ensures PieceOk(calls + [c], ps[i]) && (Whole(calls + [c], ps[i]) <==> Whole(calls, ps[i]))
    {
      assert (calls + [c])[ps[i].call] == calls[ps[i].call];
    }
    hide PieceOk, Whole;
  }

  /** The pending call, in terms of the history. */
  lemma PendingCall(s: Tx)
    requires Inv(s) && Pending(s)
    ensures 0 <= s.retired < |s.calls| && s.calls[s.retired] == s.arc.call
  {
    hide OnlyHeadReady, Published, ArcProgress, PodProgress, Slot;
  }

  lemma NotPendingQuiet(s: Tx)
    requires Inv(s) && !Pending(s)
    ensures (s.pod.Resting? || s.pod.Sampled? || s.pod.Advancing?) && !s.ongoing
  {
    hide Counters, OnlyHeadReady, Published, ArcProgress;
  }

  /** A transfer under way is of the pending call, and part of its frame is out. */
  lemma OngoingFacts(s: Tx)
    requires Inv(s) && s.ongoing
    ensures Pending(s) && Fits(s.arc.call) && !Out(s)
    ensures var f := Frame(PacketOf(s.arc.call));
      s.total == |f| && s.pos < s.total && s.txBuf[..s.total] == f
  {
    hide Counters, OnlyHeadReady, Published, ArcProgress;
  }

  // ---- Steps

  /** A transfer ends, in time or abandoned: what is out of it becomes a piece. */
  lemma Ends(s: Tx, ps: seq<Piece>, f: seq<Byte>, n: nat, out: bool) returns (qs: seq<Piece>)
    requires Inv(s) && Pending(s) && Fits(s.arc.call) && Chain(s.calls, ps) && UpTo(s.calls, ps, s.retired, false)
    requires f == Frame(PacketOf(s.arc.call)) && n <= |f| && (n == |f| ==> out)
    ensures Chain(s.calls, qs) && UpTo(s.calls, qs, s.retired, out) && Concat(qs) == Concat(ps) + f[..n]
  {
    PendingCall(s);
    hide Inv, Frame, PacketOf, Fits, Pending, Chain, UpTo, Concat;
    var p := Piece(s.retired, f[..n]);
    assert n == |f| <==> p.bytes == f;
    ChainSnoc(s.calls, ps, p, out);
    ConcatSnoc(ps, p);
    qs := ps + [p];
  }

  lemma SamePieces(s: Tx, r: Tx, ps: seq<Piece>)
    requires Shape(s) && Shape(r) && InPieces(s, ps)
    requires r.calls == s.calls && r.retired == s.retired && r.wire == s.wire && Sending(r) == Sending(s)
    requires Out(s) ==> Out(r)
    ensures InPieces(r, ps)
  {
    hide Chain, Sending, Whole;
  }

  lemma FrontOf<X>(t: seq<X>, k: nat, i: nat, j: nat)
    requires i <= j <= k <= |t|
    ensures t[..k][i..j] == t[i..j] && t[..k][..j] == t[..j]
  {}

  /** pipe_tx_continue, in terms of the frame. */
  lemma ContinueIs(s: Tx, accept: nat, f: seq<Byte>)
    requires Shape(s) && s.ongoing && s.total == |f| && s.pos < s.total && s.txBuf[..s.total] == f
    ensures var r := Continue(s, accept);
      && s.pos <= r.pos <= |f| && r.wire == s.wire + f[s.pos..r.pos] && r.calls == s.calls && r.retired == s.retired
      && s.txBuf[..s.pos] == f[..s.pos] && (r.ongoing ==> r.txBuf[..r.pos] == f[..r.pos] && !Out(r))
      && (r.ongoing <==> r.pos < |f|) && (!r.ongoing ==> Out(r))
  {
    FrontOf(s.txBuf, s.total, s.pos, s.pos + Min(accept, s.total - s.pos));
    hide Shape;
  }

  lemma ContinuePieces(s: Tx, accept: nat, ps: seq<Piece>) returns (qs: seq<Piece>)
    requires Inv(s) && s.pod.Sampled? && s.ongoing && InPieces(s, ps)
    ensures InPieces(Continue(s, accept), qs)
  {
    OngoingFacts(s);
    ShapePart(s);
    ContinueIs(s, accept, Frame(PacketOf(s.arc.call)));
    hide Inv, Frame, Continue, Chain, Concat;
    var r, f := Continue(s, accept), Frame(PacketOf(s.arc.call));
    W.Extend(Concat(ps), f, s.pos, r.pos);
    qs := ps;
    if !r.ongoing {
      qs := Ends(s, ps, f, r.pos, true);
      assert r.wire + [] == r.wire;
    }
  }

  lemma AbandonPieces(s: Tx, ps: seq<Piece>) returns (qs: seq<Piece>)
    requires Inv(s) && s.pod.Sampled? && s.ongoing && InPieces(s, ps)
    ensures InPieces(s.(ongoing := false, pod := Resting), qs)
  {
    hide Inv, Frame, Chain, Concat, Shape, Fits, PacketOf, UpTo;
    ShapePart(s);
    OngoingFacts(s);
    var f := Frame(PacketOf(s.arc.call));
    FrontOf(s.txBuf, s.total, s.pos, s.pos);
    qs := Ends(s, ps, f, s.pos, false);
    ShapeRests(s);
    assert s.wire + [] == s.wire;
  }

  lemma ShapePart(s: Tx)
    requires Inv(s)
    ensures Shape(s) && (s.ongoing ==> s.pos <= s.total <= |s.txBuf|)
  {
    hide Counters, OnlyHeadReady, LastCall, Published, ArcProgress, PodProgress;
  }

  lemma ShapeRests(s: Tx)
    requires Shape(s)
    ensures Shape(s.(ongoing := false, pod := Resting))
  {}

  lemma LaunchPieces(s: Tx, accept: nat, ps: seq<Piece>) returns (qs: seq<Piece>)
    requires Inv(s) && s.pod.Copying? && s.pod.i == s.pod.len && InPieces(s, ps)
    ensures InPieces(Launch(s, s.pod.len, accept), qs)
  {
    LaunchInv(s, accept);
    ShapePart(s);
    assert Pending(s) && Fits(s.arc.call) && !s.ongoing by {
      hide Counters, OnlyHeadReady, Published, ArcProgress, Frame;
    }
    var r, f := Launch(s, s.pod.len, accept), Frame(PacketOf(s.arc.call));
    assert |f| == s.pod.len + HEADER_SIZE;
    hide Inv, Frame, Chain, Concat;
    var n := Min(accept, |f|);
    FrontOf(s.txBuf, |f|, n, n);
    assert Concat(ps) + [] == Concat(ps);
    if r.ongoing {
      qs := ps;
    } else {
      qs := Ends(s, ps, f, n, true);
      assert r.wire == Concat(qs) && r.wire + [] == r.wire;
    }
  }

  lemma ClearPieces(s: Tx, accept: nat, ps: seq<Piece>)
    requires Inv(s) && s.pod.Clearing? && InPieces(s, ps)
    ensures InPieces(PodStep(s, accept), ps)
  {
    ShapePart(s);
    hide Inv, PodStep, Chain, Whole, Concat, Shape;
    W.ClearEffect(s, accept);
    if s.ongoing { OngoingFacts(s); }
  }

  lemma CheckPieces(s: Tx, up: bool, ps: seq<Piece>)
    requires Shape(s) && s.pod.Sampled? && !s.ongoing && InPieces(s, ps)
    ensures InPieces(CheckRegisters(s, up), ps)
  {
    hide InPieces, LoadWord, IsReady, SizeField, AddrField, CidField, Header;
    SamePieces(s, CheckRegisters(s, up), ps);
  }

  lemma OtherPieces(s: Tx, accept: nat, ps: seq<Piece>)
    requires Inv(s) && InPieces(s, ps) && W.Internal(s.pod)
    ensures InPieces(PodStep(s, accept), ps)
  {
    if s.ongoing { OngoingFacts(s); }
    assert Shape(s) && (s.pod.Copying? ==> !s.ongoing) by {
      hide Counters, OnlyHeadReady, Published, ArcProgress, Frame;
    }
    hide Inv, InPieces, LoadWord, NextSlot;
    SamePieces(s, PodStep(s, accept), ps);
  }

  lemma PodPieces(s: Tx, accept: nat, ps: seq<Piece>) returns (qs: seq<Piece>)
    requires Inv(s) && InPieces(s, ps)
    ensures InPieces(PodStep(s, accept), qs)
  {
    ShapePart(s);
    hide Inv, InPieces, Continue, Launch, CheckRegisters;
    qs := ps;
    match s.pod
    case Sampled(up) =>
      if !s.ongoing { CheckPieces(s, up, ps); }
      else if up { qs := ContinuePieces(s, accept, ps); }
      else { qs := AbandonPieces(s, ps); }
    case Copying(len, addr, i) =>
      if i == len { qs := LaunchPieces(s, accept, ps); } else { hide PodStep; OtherPieces(s, accept, ps); }
    case Clearing(w) => hide PodStep; ClearPieces(s, accept, ps);
    case _ => hide PodStep; OtherPieces(s, accept, ps);
  }

  lemma StepPieces(s: Tx, a: Action, ps: seq<Piece>) returns (qs: seq<Piece>)
    requires Inv(s) && InPieces(s, ps)
    ensures InPieces(Step(s, a), qs)
  {
    ShapePart(s);
    hide Inv, ArcStep, PodStep;
    qs := ps;
    match a
    case Submit(c) => ChainGrows(s.calls, c, ps, s.retired, Out(s)); hide Chain, UpTo, Concat;
    case Pod(n) => qs := PodPieces(s, n, ps);
    case _ => hide InPieces; SamePieces(s, Step(s, a), ps);
  }

  lemma {:induction false} RunPieces(s: Tx, acts: seq<Action>, ps: seq<Piece>) returns (qs: seq<Piece>)
    requires Inv(s) && InPieces(s, ps)
    ensures Inv(Run(s, acts)) && InPieces(Run(s, acts), qs)
    decreases |acts|
  {
    qs := ps;
    if |acts| > 0 {
      StepInv(s, acts[0]);
      hide Inv, Step, InPieces;
      var rs := StepPieces(s, acts[0], ps);
      qs := RunPieces(Step(s, acts[0]), acts[1..], rs);
    }
  }

  /** Whatever the link does, the wire is made of pieces of frames of the calls that fit, in order, each
      from the frame's start; a call's frame goes out as a whole at most once, and then nothing more of
      it. */
  lemma WireInPieces(s: Tx, acts: seq<Action>) returns (ps: seq<Piece>)
    requires Initial(s)
    ensures var r := Run(s, acts);
      Chain(r.calls, ps) && r.wire == Concat(ps)
  {
    InitialInv(s);
    assert InPieces(s, []);
    ps := RunPieces(s, acts, []);
    var r := Run(s, acts);
    hide Run;
    if r.ongoing {
      OngoingFacts(r);
      var f := Frame(PacketOf(r.arc.call));
      FrontOf(r.txBuf, r.total, r.pos, r.pos);
      ps := Ends(r, ps, f, r.pos, false);
    } else {
      hide Inv, Concat, Chain;
      assert Concat(ps) + [] == Concat(ps);
    }
  }

  // ---- A transfer abandoned and begun again

  /** A published packet that fits, at a podule at rest, and its first poll, of which the link takes n
      bytes. */
  lemma PollsOnce(s: Tx, n: nat) returns (acts: seq<Action>)
    requires G.Waiting(s) && Fits(s.arc.call) && n <= |Frame(PacketOf(s.arc.call))|
    ensures var r, f := Run(s, acts), Frame(PacketOf(s.arc.call));
      && Inv(r) && r.pod.Resting? && r.arc == s.arc && r.calls == s.calls && r.wire == s.wire + f[..n]
      && (n < |f| ==> r.ongoing)
  {
    G.FirstPoll(s, n);
    G.WaitingShape(s);
    assert Inv(s) by { hide Inv; }
    var j := PollIsRun(s, n);
    acts := Repeat(Pod(n), j);
    hide Inv, Run, PollTx, G.Waiting, Frame, Shape, Fits;
    G.PodRun(s, n, j);
    RunInv(s, acts);
  }

  /** The link goes down for one poll: the transfer is forgotten, its descriptor still READY. */
  lemma Forgets(r: Tx)
    requires Inv(r) && r.ongoing && r.pod.Resting?
    ensures var q := Run(r, [Usb(false), Pod(0), Pod(0), Usb(true)]);
      G.Waiting(q) && q.arc == r.arc && q.calls == r.calls && q.wire == r.wire && !q.steady
  {
    OngoingFacts(r);
    assert Shape(r) by { hide Counters, OnlyHeadReady, LastCall, Published, ArcProgress, PodProgress; }
    var acts := [Usb(false), Pod(0), Pod(0), Usb(true)];
    RunInv(r, acts);
    hide Inv, Frame, Shape;
    var t := r.(connected := false, steady := false);
    assert Step(r, acts[0]) == t && acts[1..] == [Pod(0), Pod(0), Usb(true)];
    assert Step(t, Pod(0)) == t.(pod := Sampled(false)) && acts[1..][1..] == [Pod(0), Usb(true)];
    assert Step(t.(pod := Sampled(false)), Pod(0)) == t.(ongoing := false);
    assert acts[1..][1..][1..] == [Usb(true)] && acts[1..][1..][1..][1..] == [];
    assert Step(t.(ongoing := false), Usb(true)) == t.(ongoing := false, connected := true);
  }

  /** From power-up, any call that fits can leave any proper part of its frame on the wire, and then the
      whole frame, when the link goes down for one poll in between. */
  lemma ReconnectResends(s: Tx, c: Call, n: nat) returns (acts: seq<Action>)
    requires Initial(s) && s.connected && Legal(c) && Fits(c) && n < |Frame(PacketOf(c))|
    ensures var r, f := Run(s, acts), Frame(PacketOf(c));
      r.calls == [c] && r.wire == f[..n] + f
  {
    W.InitialWire(s);
    W.WireBegin(s, c);
    var b := Begin(s, c);
    assert b.calls == [c] && Shape(b) && G.Entered(b);
    hide Inv, W.WireExact, Run, Frame, PacketOf, G.Waiting, G.Entered;
    var fill := G.PublishRun(b);
    var t := Run(b, fill);
    FirstWaits(t, c);
    var part := PollsOnce(t, n);
    var u := Run(t, part);
    Forgets(u);
    var drop := [Usb(false), Pod(0), Pod(0), Usb(true)];
    var v := Run(u, drop);
    var again := PollsOnce(v, |Frame(PacketOf(c))|);
    RunFour(b, fill, part, drop, again);
    G.RunFirst(s, c, fill + (part + (drop + again)));
    acts := [Submit(c)] + (fill + (part + (drop + again)));
    var f := Frame(PacketOf(c));
    assert f[..|f|] == f && [] + f[..n] == f[..n];
  }

  lemma RunFour(s: Tx, a: seq<Action>, b: seq<Action>, c: seq<Action>, d: seq<Action>)
    requires Shape(s)
    ensures Run(s, a + (b + (c + d))) == Run(Run(Run(Run(s, a), b), c), d)
  {
    hide Run, Shape;
    RunAppend(Run(Run(s, a), b), c, d);
    RunAppend(Run(s, a), b, c + d);
    RunAppend(s, a, b + (c + d));
  }

  /** The first call, published. */
  lemma FirstWaits(t: Tx, c: Call)
    requires G.Waiting(t) && W.WireExact(t) && t.steady && t.calls == [c]
    ensures t.arc.call == c && t.wire == [] && Shape(t)
  {
    hide OnlyHeadReady, Published, ArcProgress, PodProgress, Frame, Slot;
    assert t.retired == 0 && t.calls[..0] == [];
    assert W.Partial(t) == [];
  }

  // ---- What the decoder makes of it

  /** Of such a stream the decoder finds the packet first if and only if the part that went out before is
      a border of the frame: what follows it in the frame is the frame's own beginning. */
  lemma ResentDecodes(p: Packet, n: nat)
    requires Sized(p) && n < |Frame(p)|
    ensures var f := Frame(p);
      var d := Decode(f[..n] + f, HEADER);
      |d.packets| > 0 && d.packets[0] == p <==> f[n..] == f[..|f| - n]
  {
    var f := Frame(p);
    var wire := f[..n] + f;
    FrameHeader(p, wire[|f|..]);
    hide Frame, FrameLen, FirstPacket;
    assert wire[..|f|] == f[..n] + f[..|f| - n];
    assert f == f[..n] + f[n..];
    if f[n..] == f[..|f| - n] { assert wire == f + wire[|f|..]; }
    if Complete(wire, HEADER) && FirstPacket(wire) == p {
      FrameOfFirst(wire);
      assert f[n..] == wire[..FrameLen(wire)][n..];
    }
  }

  /** So from power-up, cut where the frame goes on with any other byte than its channel, the packet is not
      what the decoder finds first. */
  lemma ReconnectMisleads(s: Tx, c: Call, n: nat) returns (acts: seq<Action>)
    requires Initial(s) && s.connected && Legal(c) && Fits(c)
    requires var f := Frame(PacketOf(c));
      n < |f| && f[n] != c.cid % 0x80
    ensures var r := Run(s, acts);
      var d := Decode(r.wire, HEADER);
      r.calls == [c] && (|d.packets| > 0 ==> d.packets[0] != PacketOf(c))
  {
    var p := PacketOf(c);
    ResentDecodes(p, n);
    acts := ReconnectResends(s, c, n);
    hide Decode, Run;
    var f := Frame(p);
    assert f[n..][0] == f[n] && f[..|f| - n][0] == p.cid;
  }
}
