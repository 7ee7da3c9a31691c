/** The transmit direction gets there: from any state between calls every legal call can be carried
    through, and a published descriptor takes a bounded number of polls. */
module TxProgress {
  import opened Bits
  import opened Memory
  import opened PoduleRegs
  import opened Framing
  import opened TxPipe
  import opened TxWire
  import opened TxPoll
  import opened Sequences
  import ArcPipe

  /** Room for a whole frame. */
  const WHOLE: nat := BUFFER_SIZE + HEADER_SIZE

  /** Steps of the Archimedes inside a call, and of the podule. */
  predicate Inside(acts: seq<Action>) { forall i :: 0 <= i < |acts| ==> acts[i].Arc? || acts[i].Pod? }

  lemma {:induction false} PodRun(s: Tx, n: nat, k: nat)
    requires Shape(s)
    ensures Run(s, Repeat(Pod(n), k)) == PodSteps(s, n, k)
    decreases k
  {
    hide PodStep, Shape;
    if k > 0 {
      assert Repeat(Pod(n), k)[1..] == Repeat(Pod(n), k - 1);
      PodRun(PodStep(s, n), n, k - 1);
    }
  }

  function ArcSteps(s: Tx, k: nat): (r: Tx)
    requires Shape(s)
    ensures Shape(r)
    decreases k
  {
    if k == 0 then s else ArcSteps(ArcStep(s), k - 1)
  }

  lemma {:induction false} ArcRun(s: Tx, k: nat)
    requires Shape(s)
    ensures Run(s, Repeat(Arc, k)) == ArcSteps(s, k)
    decreases k
  {
    hide ArcStep, Shape;
    if k > 0 {
      assert Repeat(Arc, k)[1..] == Repeat(Arc, k - 1);
      ArcRun(ArcStep(s), k - 1);
    }
  }

  // ---- Publication

  /** The accesses left before the descriptor is published. */
  function Left(s: Tx): nat
    requires Shape(s)
  {
    match s.arc
    case Filling(c, i) => |c.data| - i + 4
    case Publishing(c, r9, k) => 4 - k
    case _ => 0
  }

  lemma LeftShrinks(s: Tx)
    requires Shape(s) && (s.arc.Filling? || s.arc.Publishing?)
    ensures var r := ArcStep(s);
      && Left(r) == Left(s) - 1 && !r.arc.Idle? && r.arc.call == s.arc.call && (r.arc.Polling? <==> Left(s) == 1)
  {
    if s.arc.Filling? { ArcPipe.FillStep(s); } else { ArcPipe.PublishStep(s); }
    hide ArcStep;
  }

  lemma OnlyThen(s: Tx, r: Tx, q: Tx)
    requires ArcOnly(s, r) && ArcOnly(r, q)
    ensures ArcOnly(s, q)
  {}

  lemma NotYetRetired(s: Tx)
    requires Inv(s) && (s.arc.Filling? || s.arc.Publishing?)
    ensures s.retired + 1 == |s.calls|
  {
    hide ArcProgress, Published, PodProgress, OnlyHeadReady;
  }

  lemma {:induction false} Publishes(s: Tx, k: nat)
    requires Inv(s) && (s.arc.Filling? || s.arc.Publishing?) && k == Left(s)
    ensures var r := ArcSteps(s, k);
      Inv(r) && ArcOnly(s, r) && r.arc == Polling(s.arc.call) && Pending(r)
    decreases k
  {
    LeftShrinks(s);
    ArcInv(s);
    NotYetRetired(s);
    var r := ArcStep(s);
    assert ArcOnly(s, r) && ArcSteps(s, k) == ArcSteps(r, k - 1);
    assert r.retired == s.retired && r.calls == s.calls;
    hide Inv, ArcStep, Left, ArcOnly, Shape;
    if k == 1 {
      assert ArcSteps(r, 0) == r;
    } else {
      hide ArcSteps;
      Publishes(r, k - 1);
      OnlyThen(s, r, ArcSteps(r, k - 1));
    }
  }

  // ---- The podule takes it

  /** A published packet that fits, at a podule at rest on a live link. */
  predicate Waiting(s: Tx) {
    Inv(s) && Pending(s) && s.pod.Resting? && !s.ongoing && s.connected
  }

  /** pipe_tx_start's buffer, once its memcpy is over. */
  lemma Assembles(s: Tx)
    requires Waiting(s) && Fits(s.arc.call)
    ensures var c := s.arc.call;
      var t := Start(s.(pod := Sampled(true)), c.cid % 0x80, |c.data|, 0);
      && t.pod == Copying(|c.data|, 0, 0)
      && Copied(t).txBuf[..|c.data| + HEADER_SIZE] == Frame(PacketOf(c))
      && PoduleOnly(s, Copied(t)) && Copied(t).wire == s.wire && !Copied(t).ongoing
  {
    hide StoreWord, LoadWord, ClearReady, IsReady, TopBitSet, SizeField, AddrField, CidField, WordFor, NextSlot, Slot,
      OnlyHeadReady, Counters, ArcProgress;
    var c := s.arc.call;
    var h := Header(c.cid % 0x80, |c.data|);
    var b := CopyRest(h + s.txBuf[HEADER_SIZE..], s.buf, HEADER_SIZE, 0, 0, |c.data|);
    assert b[..|c.data| + HEADER_SIZE] == h + s.buf[..|c.data|];
  }

  /** What the first poll finds in the descriptor. */
  lemma DescriptorFound(s: Tx)
    requires Waiting(s)
    ensures var c, w := s.arc.call, LoadWord(s.descrs[s.tail]);
      && Legal(c) && IsReady(w) && AddrField(w) == 0 && SizeField(w) == |c.data| && CidField(w) % 0x100 == c.cid % 0x80
  {
    SampleInv(s);
    assert Legal(s.arc.call) by { hide Counters, OnlyHeadReady, Published, ArcProgress, PodProgress; }
    hide Inv, LoadWord, IsReady, SizeField, AddrField, CidField;
    WordFields(s.arc.call);
  }

  lemma WordFields(c: Call)
    requires Legal(c)
    ensures var w := WordFor(c);
      IsReady(w) && AddrField(w) == 0 && SizeField(w) == |c.data| && CidField(w) % 0x100 == c.cid % 0x80
  {
    hide IsReady, SizeField, AddrField, CidField, ArcDescr;
    assert CidField(WordFor(c)) == c.cid % 0x80;
  }

  /** The first poll on a published descriptor, the link taking at most `accept` bytes. */
  predicate PolledOnce(s: Tx, r: Tx, accept: nat)
    requires Waiting(s)
  {
    var f := Frame(PacketOf(s.arc.call));
    var n := Min(accept, |f|);
    && r.pod.Resting? && r.arc == s.arc && r.head == s.head && r.calls == s.calls && r.connected && r.steady == s.steady
    && if !Fits(s.arc.call) then !r.ongoing && r.retired == s.retired + 1 && r.wire == s.wire
       else
         && r.wire == s.wire + f[..n]
         && if n == |f| then !r.ongoing && r.retired == s.retired + 1
            else r.ongoing && r.retired == s.retired && r.pos == n && r.total == |f| <= |r.txBuf| && r.txBuf[..|f|] == f
  }

  lemma Launches(t: Tx, len: nat, f: seq<Byte>, accept: nat)
    requires Shape(t) && len < BUFFER_SIZE && |f| == len + HEADER_SIZE && t.txBuf[..len + HEADER_SIZE] == f
      && !t.ongoing
    ensures var r, n := RetireIfDone(Launch(t, len, accept)), Min(accept, |f|);
      && r.pod.Resting? && r.arc == t.arc && r.head == t.head && r.calls == t.calls && r.connected == t.connected
      && r.steady == t.steady && r.wire == t.wire + f[..n]
      && if n == |f| then !r.ongoing && r.retired == t.retired + 1
         else r.ongoing && r.retired == t.retired && r.pos == n && r.total == |f| && r.txBuf == t.txBuf
  {
    hide LoadWord, StoreWord, ClearReady, NextSlot;
    assert t.txBuf[..Min(accept, |f|)] == f[..Min(accept, |f|)];
  }

  /** The first poll is pipe_tx_start. */
  lemma FirstIsStart(s: Tx, accept: nat)
    requires Waiting(s)
    ensures var t, c := s.(pod := TxPipe.Sampled(true)), s.arc.call;
      var u := Start(t, c.cid % 0x80, |c.data|, 0);
      PollTx(s, accept) == RetireIfDone(if u.pod.Copying? then Launch(Copied(u), |c.data|, accept) else u)
  {
    DescriptorFound(s);
    WaitingShape(s);
    assert !s.ongoing && s.connected by { hide Inv; }
    hide Waiting, LoadWord, IsReady, AddrField, SizeField, CidField, CopyRest, Header, Launch, RetireIfDone;
  }

  lemma Drops(t: Tx, len: nat, cid: Byte)
    requires Shape(t) && len >= BUFFER_SIZE && !t.ongoing
    ensures var r := RetireIfDone(Start(t, cid, len, 0));
      && r.pod.Resting? && r.arc == t.arc && r.head == t.head && r.calls == t.calls && r.connected == t.connected
      && r.steady == t.steady && r.wire == t.wire && !r.ongoing && r.retired == t.retired + 1
  {
    hide LoadWord, StoreWord, ClearReady, NextSlot;
  }

  lemma WaitingFacts(s: Tx)
    requires Waiting(s)
    ensures !s.ongoing && s.connected && Legal(s.arc.call)
  {
    hide Counters, OnlyHeadReady, Published, ArcProgress, PodProgress;
  }

  lemma FirstPollFits(s: Tx, accept: nat)
    requires Waiting(s) && Fits(s.arc.call)
    ensures PolledOnce(s, PollTx(s, accept), accept)
  {
    FirstIsStart(s, accept);
    WaitingShape(s);
    WaitingFacts(s);
    hide Waiting, PollTx, Launch, RetireIfDone, Frame, CopyRest, Header, Shape, Start, Copied, PacketOf, Legal;
    Assembles(s);
    var c, t := s.arc.call, s.(pod := TxPipe.Sampled(true));
    Launches(Copied(Start(t, c.cid % 0x80, |c.data|, 0)), |c.data|, Frame(PacketOf(c)), accept);
  }

  lemma FirstPoll(s: Tx, accept: nat)
    requires Waiting(s)
    ensures PolledOnce(s, PollTx(s, accept), accept)
  {
    if Fits(s.arc.call) {
      FirstPollFits(s, accept);
      hide Waiting, PollTx, PolledOnce;
    } else {
      FirstIsStart(s, accept);
      WaitingShape(s);
      WaitingFacts(s);
      hide Waiting, PollTx, Launch, RetireIfDone, Frame, CopyRest, Header, Shape, Start, Copied, PacketOf;
      var c, t := s.arc.call, s.(pod := TxPipe.Sampled(true));
      Drops(t, |c.data|, c.cid % 0x80);
      StartDrops(t, |c.data|, c.cid % 0x80);
    }
  }

  lemma StartDrops(t: Tx, len: nat, cid: Byte)
    requires Shape(t) && len >= BUFFER_SIZE
    ensures !Start(t, cid, len, 0).pod.Copying?
  {}

  /** From the published descriptor to the frame on the wire: at most as many byte-accepting polls as
      the frame has bytes, three more than the packet, and then the descriptor is retired, once. */
  lemma DescriptorToWire(s: Tx, accepts: seq<nat>) returns (k: nat)
    requires Waiting(s) && Fits(s.arc.call)
    requires |accepts| >= |s.arc.call.data| + HEADER_SIZE && forall i :: 0 <= i < |accepts| ==> accepts[i] >= 1
    ensures k <= |s.arc.call.data| + HEADER_SIZE && k <= |accepts|
    ensures var r := PollsTx(s, accepts[..k]);
      !r.ongoing && r.retired == s.retired + 1 && r.wire == s.wire + Frame(PacketOf(s.arc.call))
  {
    WaitingShape(s);
    hide PollTx, Waiting, PolledOnce, Due, Owed, Frame, Shape, Fits, PacketOf, PollsTx;
    FirstPoll(s, accepts[0]);
    FirstDue(s, PollTx(s, accepts[0]), accepts[0]);
    k := PollsOn(s, accepts);
  }

  /** The polls after the first. */
  lemma PollsOn(s: Tx, accepts: seq<nat>) returns (k: nat)
    requires Shape(s) && s.pod.Resting? && |accepts| > 0 && forall i :: 0 <= i < |accepts| ==> accepts[i] >= 1
    requires var r := PollTx(s, accepts[0]);
      r.ongoing ==> r.pos < r.total && r.connected && Owed(r) < |accepts|
    ensures var r := PollTx(s, accepts[0]);
      && k <= |accepts| && k <= (if r.ongoing then Owed(r) + 1 else 1)
      && var q := PollsTx(s, accepts[..k]);
      !q.ongoing && q.wire == Due(r) && q.retired == if r.ongoing then r.retired + 1 else r.retired
  {
    hide PollTx, Due, Owed, Shape, PollsTx;
    var r, rest := PollTx(s, accepts[0]), accepts[1..];
    if r.ongoing {
      k := TransferEnds(r, rest);
    } else {
      k := 0;
      PollsNone(r, rest);
      DueDone(r);
    }
    PollsCons(s, accepts, k);
    k := k + 1;
  }

  lemma DueDone(r: Tx)
    requires Shape(r) && !r.ongoing
    ensures Due(r) == r.wire
  {}

  lemma WaitingShape(s: Tx)
    requires Waiting(s)
    ensures Shape(s) && s.pod.Resting? && !s.arc.Idle?
  {
    hide Counters, OnlyHeadReady, LastCall, Published, ArcProgress, PodProgress;
  }

  /** What the first poll leaves due is the rest of the frame. */
  lemma FirstDue(s: Tx, r: Tx, accept: nat)
    requires Waiting(s) && Fits(s.arc.call) && Shape(r) && PolledOnce(s, r, accept) && accept >= 1
    ensures var f := Frame(PacketOf(s.arc.call));
      && Due(r) == s.wire + f && |f| == |s.arc.call.data| + HEADER_SIZE
      && (if r.ongoing then r.retired == s.retired && r.pos < r.total && Owed(r) < |f| && r.connected && r.pod.Resting?
          else r.retired == s.retired + 1)
  {
    var f := Frame(PacketOf(s.arc.call));
    assert |f| == |s.arc.call.data| + HEADER_SIZE;
    hide Waiting, Shape, Frame;
    assert f[..|f|] == f;
    if r.ongoing {
      Rejoin(s.wire, f, 0, r.pos, r.total);
      assert r.txBuf[r.pos..r.total] == r.txBuf[..r.total][r.pos..] == f[r.pos..];
    }
  }

  lemma PollsNone(s: Tx, accepts: seq<nat>)
    requires Shape(s) && s.pod.Resting?
    ensures PollsTx(s, accepts[..0]) == s
  {}

  // ---- A whole call

  /** Between two calls, on a link that has stayed up. */
  predicate Ready(s: Tx) {
    && Inv(s) && WireExact(s) && s.steady && s.arc.Idle? && s.pod.Resting? && !s.ongoing
    && s.retired == |s.calls| && s.wire == Frames(Carried(s.calls))
  }

  /** Just entered. */
  predicate Entered(s: Tx) {
    Inv(s) && WireExact(s) && s.steady && s.arc.Filling? && s.pod.Resting? && !s.ongoing
  }

  /** The descriptor cleared, the poll loop of the Archimedes ends. */
  lemma Leaves(s: Tx)
    requires Inv(s) && WireExact(s) && s.steady && s.arc.Polling? && !Pending(s) && s.pod.Resting? && !s.ongoing
    ensures Ready(ArcStep(s)) && ArcStep(s).calls == s.calls
  {
    ArcPipe.PollStep(s);
    WireArc(s);
    var r := ArcStep(s);
    assert !TopBitSet(s.descrs[s.head].b3) by { hide Counters, Published, ArcProgress, PodProgress, WireExact, Frames; }
    assert r.retired == |r.calls| by {
      hide ArcStep, OnlyHeadReady, Published, ArcProgress, PodProgress, WireExact, Frames, NextSlot;
    }
    hide ArcStep, Inv, Frames, Carried;
    assert r.calls[..r.retired] == r.calls;
    IdleWire(r);
  }

  lemma IdleWire(r: Tx)
    requires Inv(r) && WireExact(r) && r.steady && r.arc.Idle? && r.retired == |r.calls|
    ensures r.wire == Frames(Carried(r.calls))
  {
    hide Counters, OnlyHeadReady, Published, ArcProgress, PodProgress, Frames, Carried;
    assert r.calls[..r.retired] == r.calls;
    assert Partial(r) == [];
    assert Frames(Carried(r.calls)) + [] == Frames(Carried(r.calls));
  }

  /** The Archimedes alone, from entry to publication. */
  lemma PublishRun(s: Tx) returns (acts: seq<Action>)
    requires Entered(s)
    ensures Inside(acts)
    ensures var t := Run(s, acts);
      Waiting(t) && WireExact(t) && t.steady && t.calls == s.calls
  {
    var k := Left(s);
    acts := Repeat(Arc, k);
    Publishes(s, k);
    assert s.connected by { hide Inv, Frames; }
    hide Inv, Run, ArcSteps, Left, WireExact;
    ArcRun(s, k);
    WireRun(s, acts);
  }

  /** The podule alone, from there to the cleared descriptor. */
  lemma TakeRun(t: Tx) returns (acts: seq<Action>)
    requires Waiting(t) && WireExact(t) && t.steady
    ensures Inside(acts)
    ensures var u := Run(t, acts);
      && Inv(u) && WireExact(u) && u.steady && u.calls == t.calls
      && u.arc.Polling? && !Pending(u) && u.pod.Resting? && !u.ongoing
  {
    FirstPoll(t, WHOLE);
    WaitingShape(t);
    WholeTaken(t, PollTx(t, WHOLE));
    assert Inv(t) by { hide Inv; }
    var j := PollIsRun(t, WHOLE);
    acts := Repeat(Pod(WHOLE), j);
    hide Inv, Run, WireExact, PollTx, Waiting, Frame, Shape, Fits;
    PodRun(t, WHOLE, j);
    WireRun(t, acts);
  }

  /** Once entered, a call can be carried through by steps of the two parties alone. */
  lemma CallFinishes(s: Tx) returns (acts: seq<Action>)
    requires Entered(s)
    ensures Inside(acts)
    ensures Ready(Run(s, acts)) && Run(s, acts).calls == s.calls
  {
    assert Shape(s) by { hide Counters, OnlyHeadReady, LastCall, Published, ArcProgress, PodProgress, WireExact; }
    var fill := PublishRun(s);
    var t := Run(s, fill);
    hide Run, Waiting, Entered, Ready, Inv, WireExact, Pending, ArcStep;
    var take := TakeRun(t);
    var u := Run(t, take);
    Leaves(u);
    OneArc(u);
    RunAppend(t, take, [Arc]);
    RunAppend(s, fill, take + [Arc]);
    acts := fill + (take + [Arc]);
  }

  lemma OneArc(s: Tx)
    requires Shape(s)
    ensures Run(s, [Arc]) == ArcStep(s)
  {
    hide ArcStep, Shape;
    assert [Arc][1..] == [];
  }

  /** With room for the whole frame one poll is enough. */
  lemma WholeTaken(s: Tx, r: Tx)
    requires Waiting(s) && PolledOnce(s, r, WHOLE)
    ensures !Pending(r) && r.arc.Polling? && !r.ongoing
  {
    assert |Frame(PacketOf(s.arc.call))| == HEADER + |s.arc.call.data|;
    assert Legal(s.arc.call) by { hide Counters, OnlyHeadReady, Published, ArcProgress, PodProgress; }
    hide Inv, Frame;
  }

  /** No call is ever stuck: from any state between calls on a link that has stayed up, every legal
      call has a run that carries it through, after which exactly the frames of the calls that fit
      are on the wire. */
  lemma CallCompletes(s: Tx, c: Call) returns (acts: seq<Action>)
    requires Inv(s) && WireExact(s) && s.steady && s.arc.Idle? && s.pod.Resting? && !s.ongoing && Legal(c)
    ensures var r := Run(s, acts);
      && r.calls == s.calls + [c] && r.arc.Idle? && r.retired == |r.calls| && r.wire == Frames(Carried(r.calls))
      && Inv(r) && WireExact(r) && r.steady && r.pod.Resting? && !r.ongoing
  {
    WireBegin(s, c);
    var b := Begin(s, c);
    hide Inv, WireExact, Run;
    var rest := CallFinishes(b);
    RunFirst(s, c, rest);
    acts := [Submit(c)] + rest;
  }

  lemma RunFirst(s: Tx, c: Call, rest: seq<Action>)
    requires Shape(s)
    ensures Run(s, [Submit(c)] + rest) == Run(Begin(s, c), rest)
  {
    hide Begin, Shape;
    assert ([Submit(c)] + rest)[1..] == rest;
  }
}
