/** The receive direction: the server's output buffer, the USB link, the podule's reassembly
    buffer, the RX descriptor ring with its single buffer, and the Archimedes' poll and copy
    loops. Steps have the grain of TxPipe. */
module RxPipe {
  import opened Bits
  import opened PoduleRegs
  import opened Framing
  import opened Shuffle
  import opened Sequences

  /** What the server may hand to send_packet: documented sizes, seven channel bits. */
  predicate Legal(p: Packet) { 1 <= |p.payload| <= BUFFER_SIZE && p.cid < 0x80 }

  predicate AllLegal(ps: seq<Packet>) { forall i :: 0 <= i < |ps| ==> Legal(ps[i]) }

  datatype ArcRx =
    | Idle
    | Polling
    | Getting(r6: Byte, r4: nat, k: nat)
    | Fetching(len: nat, cid: nat, offset: nat, data: seq<Byte>)
    | Consuming(cid: nat, data: seq<Byte>)

  datatype PodRx =
    | Resting
    | Checking
    | Storing(i: nat)
    | Publishing
    | Advancing
    | Finishing
    | Faulted

  datatype Rx = Rx(
    form: Form, ringBits: nat,
    // shared memory
    descrs: seq<Descr>, buf: seq<Byte>, head: nat,
    // Archimedes
    arc: ArcRx, tail: nat,
    // podule
    pod: PodRx, rxBuf: seq<Byte>, rxPos: nat, last: nat, pending: bool,
    // server output and USB link
    owed: seq<Byte>, fifo: seq<Byte>,
    // history: handed to send_packet, accepted by pipe_rx_packet, returned by pipe_packet_rx
    given: seq<Packet>, accepted: seq<Packet>, received: seq<Packet>)

  /** Pod(n): one step of the podule; if it reads, the FIFO returns at most n bytes.
      Write(n): one write of the server, of which the link takes at most n bytes. */
  datatype Action = Send(p: Packet) | Write(n: nat) | Receive | Arc | Pod(n: nat)

  function FrontLen(s: Rx): nat
    requires |s.rxBuf| == BUFFER_SIZE + HEADER
  {
    FrameLen(s.rxBuf)
  }

  /** The reassembly buffer starts with a whole frame. */
  predicate FrontComplete(s: Rx)
    requires |s.rxBuf| == BUFFER_SIZE + HEADER
  {
    HEADER <= s.rxPos && FrontLen(s) <= s.rxPos
  }

  function FrontPacket(s: Rx): Packet
    requires |s.rxBuf| == BUFFER_SIZE + HEADER && FrontLen(s) <= |s.rxBuf|
  {
    Packet(s.rxBuf[0], s.rxBuf[HEADER..FrontLen(s)])
  }

  predicate Shape(s: Rx) {
    && |s.descrs| == Pow2(s.ringBits) && s.head < |s.descrs| && s.tail < |s.descrs| && s.last < |s.descrs|
    && |s.buf| == BUFFER_SIZE && |s.rxBuf| == BUFFER_SIZE + HEADER && s.rxPos <= |s.rxBuf|
    && (s.pod.Storing? || s.pod.Publishing? || s.pod.Advancing? || s.pod.Finishing? ==> FrontComplete(s))
    && (s.pod.Storing? ==> s.pod.i < FrontLen(s) - HEADER)
    && (s.arc.Getting? ==> s.arc.k < 3)
  }

  /** Steps that leave the podule and the link alone. */
  predicate ArcOnly(s: Rx, r: Rx) {
    && r.form == s.form && r.ringBits == s.ringBits && r.buf == s.buf && r.head == s.head && r.pod == s.pod
    && r.rxBuf == s.rxBuf && r.rxPos == s.rxPos && r.last == s.last && r.pending == s.pending
    && r.owed == s.owed && r.fifo == s.fifo && r.given == s.given && r.accepted == s.accepted
  }

  // ---- The server's output

  function SendStep(s: Rx, p: Packet): (r: Rx)
    requires Shape(s)
    ensures Shape(r)
  {
    if s.owed == [] && Legal(p) then s.(owed := Frame(p), given := s.given + [p]) else s
  }

  function WriteStep(s: Rx, n: nat): (r: Rx)
    requires Shape(s)
    ensures Shape(r)
  {
    var m := Min(n, |s.owed|);
    s.(fifo := s.fifo + s.owed[..m], owed := s.owed[m..])
  }

  // ---- pipe_packet_rx

  /** The byte loaded from the RX buffer, whose bytes are four apart on the bus; past the buffer
      lies memory this model does not describe. */
  function BusByte(buf: seq<Byte>, address: nat): Byte {
    if address / 4 < |buf| then buf[address / 4] else 0
  }

  function Get(s: Rx, r6: Byte, r4: nat, k: nat): (r: ArcRx)
    requires Shape(s) && k < 3
    ensures r.Fetching? || (r.Getting? && r.k < 3)
  {
    var d := s.descrs[s.tail];
    if k == 0 then Getting(r6, d.b0, 1)
    else if k == 1 then Getting(r6, Or(r4, Lsl(d.b1, BYTE_BITS)), 2)
    else
      var w := Or(Or(r4, Lsl(d.b2, 2 * BYTE_BITS)), Lsl(r6, 3 * BYTE_BITS));
      Fetching(ArcLen(w), ArcCid(w), ArcOffset(w), [])
  }

  function Fetch(s: Rx, len: nat, cid: nat, offset: nat, data: seq<Byte>): (r: ArcRx)
    ensures r.Fetching? || r.Consuming?
  {
    var more := data + [BusByte(s.buf, offset + 4 * |data|)];
    if |more| < len then Fetching(len, cid, offset, more) else Consuming(cid, more)
  }

  /** The descriptor's top byte is overwritten with zero, and the packet returned. */
  function Consume(s: Rx, cid: nat, data: seq<Byte>): (r: Rx)
    requires Shape(s)
    ensures Shape(r) && ArcOnly(s, r)
  {
    s.(descrs := s.descrs[s.tail := s.descrs[s.tail].(b3 := 0)], tail := NextSlot(s.tail, s.ringBits),
       received := s.received + [Packet(cid % 0x100, data)], arc := Idle)
  }

  function ArcStep(s: Rx): (r: Rx)
    requires Shape(s)
    ensures Shape(r) && ArcOnly(s, r)
  {
    match s.arc
    case Idle => s
    case Polling => if TopBitSet(s.descrs[s.tail].b3) then s.(arc := Getting(s.descrs[s.tail].b3, 0, 0)) else s
    case Getting(r6, r4, k) => s.(arc := Get(s, r6, r4, k))
    case Fetching(len, cid, offset, data) => s.(arc := Fetch(s, len, cid, offset, data))
    case Consuming(cid, data) => Consume(s, cid, data)
  }

  // ---- pipe_rx

  /** The read of pipe_rx: at most what the link holds and the buffer has room for. */
  function Poll(s: Rx, n: nat): (r: Rx)
    requires Shape(s)
    ensures s.pod.Resting? ==> Shape(r)
  {
    if s.pending then s.(pod := Checking)
    else if n == 0 || s.fifo == [] then s
    else
      var m := Min(Min(n, |s.fifo|), |s.rxBuf| - s.rxPos);
      s.(rxBuf := s.rxBuf[..s.rxPos] + s.fifo[..m] + s.rxBuf[s.rxPos + m..], rxPos := s.rxPos + m,
         fifo := s.fifo[m..], pod := Checking)
  }

  /** The header test of pipe_rx and the descriptor test of pipe_rx_packet. */
  function Check(s: Rx): (r: Rx)
    requires Shape(s) && s.pod.Checking?
    ensures Shape(r)
  {
    if !FrontComplete(s) then s.(pod := Resting)
    else if IsReady(LoadWord(s.descrs[s.last])) then s.(pending := true, pod := Resting)
    else if FrontLen(s) - HEADER > BUFFER_SIZE then s.(pod := Finishing)
    else if FrontLen(s) == HEADER then s.(pod := Publishing)
    else s.(pod := Storing(0))
  }

  function Store(s: Rx, i: nat): (r: Rx)
    requires Shape(s) && s.pod == Storing(i)
    ensures Shape(r)
  {
    s.(buf := s.buf[i := s.rxBuf[HEADER + i]],
       pod := if i + 1 < FrontLen(s) - HEADER then Storing(i + 1) else Publishing)
  }

  function PublishedWord(cid: Byte, len: nat): Word32
    requires len <= BUFFER_SIZE
  {
    RxCodecExact(cid, len);
    PoduleDescr(cid, len)
  }

  function Publish(s: Rx): (r: Rx)
    requires Shape(s) && s.pod.Publishing?
    ensures Shape(r)
  {
    s.(descrs := s.descrs[s.head := StoreWord(PublishedWord(s.rxBuf[0], FrontLen(s) - HEADER))],
       last := s.head, accepted := s.accepted + [FrontPacket(s)], pod := Advancing)
  }

  /** The excess shuffle at the end of pipe_rx. */
  function Finish(s: Rx): (r: Rx)
    requires Shape(s) && s.pod.Finishing?
    ensures Shape(r) && r.form == s.form
  {
    if s.rxPos > FrontLen(s) then
      match MoveExcess(s.form, s.rxBuf, s.rxPos, FrontLen(s))
      case Moved(bytes, pos) => s.(pending := false, rxBuf := bytes, rxPos := pos, pod := Resting)
      case OutOfBounds => s.(pod := Faulted)
    else s.(pending := false, rxPos := 0, pod := Resting)
  }

  function Advance(s: Rx): (r: Rx)
    requires Shape(s) && s.pod.Advancing?
    ensures Shape(r)
  {
    s.(head := NextSlot(s.head, s.ringBits), pod := Finishing)
  }

  function PodStep(s: Rx, n: nat): (r: Rx)
    requires Shape(s)
    ensures Shape(r)
  {
    match s.pod
    case Resting => Poll(s, n)
    case Checking => Check(s)
    case Storing(i) => Store(s, i)
    case Publishing => Publish(s)
    case Advancing => Advance(s)
    case Finishing => Finish(s)
    case Faulted => s
  }

  function Step(s: Rx, a: Action): (r: Rx)
    requires Shape(s)
    ensures Shape(r)
  {
    match a
    case Send(p) => SendStep(s, p)
    case Write(n) => WriteStep(s, n)
    case Receive => if s.arc.Idle? then s.(arc := Polling) else s
    case Arc => ArcStep(s)
    case Pod(n) => PodStep(s, n)
  }

  function Run(s: Rx, acts: seq<Action>): (r: Rx)
    requires Shape(s)
    ensures Shape(r)
    decreases |acts|
  {
    if |acts| == 0 then s else Run(Step(s, acts[0]), acts[1..])
  }

  /** pipe_init, module start, and a server with nothing to send. */
  predicate Initial(s: Rx) {
    && Shape(s)
    && (forall j :: 0 <= j < |s.descrs| ==> s.descrs[j] == Descr(0, 0, 0, 0))
    && s.head == 0 && s.tail == 0 && s.last == 0 && s.arc.Idle? && s.pod.Resting?
    && s.rxPos == 0 && !s.pending && s.owed == [] && s.fifo == []
    && s.given == [] && s.accepted == [] && s.received == []
  }

  // ---- The invariant

  lemma WordReady(w: Word32)
    requires IsReady(w)
    ensures TopBitSet(StoreWord(w).b3) && IsReady(LoadWord(StoreWord(w)))
  {
    hide *;
    StoreLoad(w);
    ReadyByte(StoreWord(w));
  }

  lemma WordDecodes(cid: Byte, len: nat)
    requires 1 <= len <= BUFFER_SIZE
    ensures var w := PublishedWord(cid, len);
      && IsReady(w) && ArcWord(StoreWord(w)) == w
      && ArcLen(w) == len && ArcCid(w) == cid % 0x80 && ArcOffset(w) == 0
  {
    assert PublishedWord(cid, len) == PoduleDescr(cid, len);
    hide *;
    RxCodec(cid, len);
  }

  lemma WordRoundTrip(p: Packet)
    requires Legal(p)
    ensures var w := PublishedWord(p.cid, |p.payload|);
      && IsReady(w) && TopBitSet(StoreWord(w).b3) && ArcWord(StoreWord(w)) == w
      && ArcLen(w) == |p.payload| && ArcCid(w) == p.cid && ArcOffset(w) == 0
  {
    hide PublishedWord, IsReady, ArcWord, StoreWord, LoadWord, ArcLen, ArcCid, ArcOffset, TopBitSet;
    WordDecodes(p.cid, |p.payload|);
    WordReady(PublishedWord(p.cid, |p.payload|));
  }

  /** A packet has been accepted by the podule and not yet returned by pipe_packet_rx. */
  predicate InFlight(s: Rx) { |s.accepted| == |s.received| + 1 }

  /** Nothing is lost, invented or reordered: what was accepted, what was received, and what is
      still on its way are one prefix after the other of what was given. */
  predicate Order(s: Rx) {
    && AllLegal(s.given) && s.accepted <= s.given && s.received <= s.accepted
    && |s.accepted| <= |s.received| + 1
  }

  /** The unconsumed bytes in the reassembly buffer. */
  function Held(s: Rx): seq<Byte>
    requires Shape(s)
  {
    if s.pod.Advancing? || s.pod.Finishing? then s.rxBuf[FrontLen(s)..s.rxPos] else s.rxBuf[..s.rxPos]
  }

  /** The bytes held, in the link and owed by the server are exactly the frames of the packets
      not yet accepted. */
  predicate Conserved(s: Rx)
    requires Shape(s) && Order(s)
  {
    s.pod.Faulted? || Held(s) + (s.fifo + s.owed) == Frames(s.given[|s.accepted|..])
  }

  predicate Counters(s: Rx) {
    && (s.pod.Advancing? ==> |s.accepted| >= 1)
    && s.head == Slot(if s.pod.Advancing? then |s.accepted| - 1 else |s.accepted|, s.ringBits)
    && s.tail == Slot(|s.received|, s.ringBits)
    && (|s.accepted| > 0 ==> s.last == Slot(|s.accepted| - 1, s.ringBits))
  }

  /** At most one descriptor is READY, and it is the one created last. */
  predicate OnlyLastReady(descrs: seq<Descr>, flight: bool, last: nat) {
    forall j :: 0 <= j < |descrs| && TopBitSet(descrs[j].b3) ==> flight && j == last
  }

  predicate Delivered(d: Descr, buf: seq<Byte>, p: Packet) {
    && Legal(p) && |p.payload| <= |buf|
    && d == StoreWord(PublishedWord(p.cid, |p.payload|)) && buf[..|p.payload|] == p.payload
  }

  /** What the Archimedes has picked up so far comes from the packet in flight. */
  predicate ArcHolds(arc: ArcRx, p: Packet)
    requires Legal(p)
  {
    var d := StoreWord(PublishedWord(p.cid, |p.payload|));
    match arc
    case Getting(r6, r4, k) =>
      && r6 == d.b3
      && (k == 1 ==> r4 == d.b0)
      && (k == 2 ==> r4 == Or(d.b0, Lsl(d.b1, BYTE_BITS)))
    case Fetching(len, cid, offset, data) =>
      && len == |p.payload| && cid == p.cid && offset == 0 && |data| < len && data == p.payload[..|data|]
    case Consuming(cid, data) => cid == p.cid && data == p.payload
    case _ => true
  }

  predicate Waiting(arc: ArcRx) { arc.Idle? || arc.Polling? }

  predicate Flight(s: Rx)
    requires Shape(s) && Order(s)
  {
    && OnlyLastReady(s.descrs, InFlight(s), s.last)
    && (InFlight(s) ==> Delivered(s.descrs[s.last], s.buf, s.accepted[|s.received|]))
    && (!Waiting(s.arc) ==> InFlight(s) && ArcHolds(s.arc, s.accepted[|s.received|]))
  }

  predicate PodProgress(s: Rx)
    requires Shape(s)
  {
    && (s.pending ==> s.pod.Faulted? || FrontComplete(s))
    && (s.pod.Storing? || s.pod.Publishing? ==> !InFlight(s))
    && (s.pod.Storing? ==> s.buf[..s.pod.i] == s.rxBuf[HEADER..HEADER + s.pod.i])
    && (s.pod.Publishing? ==>
          var n := FrontLen(s) - HEADER;
          n <= BUFFER_SIZE && s.buf[..n] == s.rxBuf[HEADER..FrontLen(s)])
  }

  predicate Inv(s: Rx) {
    Shape(s) && Order(s) && Conserved(s) && Counters(s) && Flight(s) && PodProgress(s)
  }

  lemma InitialInv(s: Rx)
    requires Initial(s)
    ensures Inv(s)
  {
    TopBit(0);
  }

  lemma LegalSized(ps: seq<Packet>)
    requires AllLegal(ps)
    ensures AllSized(ps)
  {}

  // ---- The server side

  lemma SendInv(s: Rx, p: Packet)
    requires Inv(s)
    ensures Inv(SendStep(s, p))
  {
    hide Frames, Frame, Slot, OnlyLastReady, Delivered, ArcHolds;
    var r := SendStep(s, p);
    if r != s {
      var gs := s.given[|s.accepted|..];
      assert r.given[|r.accepted|..] == gs + [p];
      FramesSnoc(gs, p);
      assert s.fifo + [] == s.fifo;
      ConcatAssoc(Held(s), s.fifo, Frame(p));
    }
  }

  lemma WriteInv(s: Rx, n: nat)
    requires Inv(s)
    ensures Inv(WriteStep(s, n))
  {
    hide Frames, Slot, OnlyLastReady, Delivered, ArcHolds;
    var m := Min(n, |s.owed|);
    Transfer(s.fifo, s.owed, m);
  }

  // ---- The Archimedes

  /** In pipe_packet_rx past its poll loop, the slot at the tail holds the packet in flight. */
  lemma FlightSlot(s: Rx)
    requires Shape(s) && Order(s) && Counters(s) && InFlight(s)
    ensures s.tail == s.last
  {}

  /** A step of the Archimedes that only changes its registers. */
  lemma ArcRegisters(s: Rx, arc: ArcRx)
    requires Inv(s) && (arc.Getting? ==> arc.k < 3)
    requires Waiting(arc) || (InFlight(s) && Legal(s.accepted[|s.received|]) && ArcHolds(arc, s.accepted[|s.received|]))
    ensures Inv(s.(arc := arc))
  {
    hide Frames, Slot, OnlyLastReady, Delivered, ArcHolds, Legal;
  }

  lemma PollReady(s: Rx)
    requires Inv(s) && s.arc.Polling?
    ensures Inv(ArcStep(s))
  {
    if TopBitSet(s.descrs[s.tail].b3) {
      FlightSlot(s);
      ArcRegisters(s, Getting(s.descrs[s.tail].b3, 0, 0));
    }
  }

  lemma GetHolds(d: Descr, p: Packet, k: nat, r4: nat, arc: ArcRx)
    requires Legal(p) && d == StoreWord(PublishedWord(p.cid, |p.payload|))
    requires k < 3 && ArcHolds(Getting(d.b3, r4, k), p)
    requires arc ==
      if k == 0 then Getting(d.b3, d.b0, 1)
      else if k == 1 then Getting(d.b3, Or(r4, Lsl(d.b1, BYTE_BITS)), 2)
      else Fetching(ArcLen(ArcWord(d)), ArcCid(ArcWord(d)), ArcOffset(ArcWord(d)), [])
    ensures ArcHolds(arc, p)
  {
    WordRoundTrip(p);
    hide PublishedWord, StoreWord, ArcWord, ArcLen, ArcCid, ArcOffset, TopBitSet, IsReady, Or, Lsl;
  }

  lemma GetIs(s: Rx)
    requires Shape(s) && s.arc.Getting?
    ensures var d := s.descrs[s.tail];
      var r4, k := s.arc.r4, s.arc.k;
      s.arc.r6 == d.b3 && (k == 2 ==> r4 == Or(d.b0, Lsl(d.b1, BYTE_BITS))) ==>
      Get(s, s.arc.r6, r4, k) ==
        if k == 0 then Getting(d.b3, d.b0, 1)
        else if k == 1 then Getting(d.b3, Or(r4, Lsl(d.b1, BYTE_BITS)), 2)
        else Fetching(ArcLen(ArcWord(d)), ArcCid(ArcWord(d)), ArcOffset(ArcWord(d)), [])
  {
    hide Or, Lsl, ArcLen, ArcCid, ArcOffset;
  }

  lemma GetInv(s: Rx)
    requires Inv(s) && s.arc.Getting?
    ensures Inv(ArcStep(s))
  {
    FlightSlot(s);
    GetIs(s);
    hide Get, Or, Lsl, ArcWord, ArcLen, ArcCid, ArcOffset, StoreWord, PublishedWord;
    var arc := Get(s, s.arc.r6, s.arc.r4, s.arc.k);
    GetHolds(s.descrs[s.tail], s.accepted[|s.received|], s.arc.k, s.arc.r4, arc);
    ArcRegisters(s, arc);
  }

  lemma FetchHolds(buf: seq<Byte>, p: Packet, data: seq<Byte>, more: seq<Byte>)
    requires |data| < |p.payload| <= |buf| && buf[..|p.payload|] == p.payload && data == p.payload[..|data|]
    requires more == data + [BusByte(buf, 0 + 4 * |data|)]
    ensures more == p.payload[..|more|]
  {
    var i := |data|;
    assert (0 + 4 * i) / 4 == i;
    assert buf[i] == buf[..|p.payload|][i];
  }

  lemma FetchInv(s: Rx)
    requires Inv(s) && s.arc.Fetching?
    ensures Inv(ArcStep(s))
  {
    var p := s.accepted[|s.received|];
    var data := s.arc.data;
    FetchHolds(s.buf, p, data, data + [BusByte(s.buf, s.arc.offset + 4 * |data|)]);
    assert p.payload[..|p.payload|] == p.payload;
    hide BusByte, StoreWord, PublishedWord;
    ArcRegisters(s, Fetch(s, s.arc.len, s.arc.cid, s.arc.offset, data));
  }

  lemma ConsumeSlots(descrs: seq<Descr>, last: nat)
    requires last < |descrs| && OnlyLastReady(descrs, true, last)
    ensures OnlyLastReady(descrs[last := descrs[last].(b3 := 0)], false, last)
  {
    TopBit(0);
    hide TopBitSet;
  }

  lemma ConsumedPacket(cid: nat, data: seq<Byte>, p: Packet)
    requires Legal(p) && ArcHolds(Consuming(cid, data), p)
    ensures Packet(cid % 0x100, data) == p
  {
    hide PublishedWord, StoreWord;
  }

  lemma ConsumeInv(s: Rx, cid: nat, data: seq<Byte>)
    requires Inv(s) && s.arc == Consuming(cid, data)
    ensures Inv(Consume(s, cid, data))
    ensures Consume(s, cid, data).received == s.accepted
  {
    hide Frames, Slot, NextSlot, OnlyLastReady, ArcHolds;
    var p := s.accepted[|s.received|];
    FlightSlot(s);
    ConsumeSlots(s.descrs, s.last);
    MaskedStep(|s.received|, s.ringBits);
    ConsumedPacket(cid, data, p);
    assert s.accepted == s.received + [p];
    hide Delivered, FrontPacket, FrameLen;
  }

  lemma ArcInv(s: Rx)
    requires Inv(s)
    ensures Inv(ArcStep(s))
  {
    hide Inv;
    match s.arc
    case Idle =>
    case Polling => PollReady(s);
    case Getting(r6, r4, k) => GetInv(s);
    case Fetching(len, cid, offset, data) => FetchInv(s);
    case Consuming(cid, data) => ConsumeInv(s, cid, data);
  }

  // ---- The podule

  lemma PollInv(s: Rx, n: nat)
    requires Inv(s) && s.pod.Resting?
    ensures Inv(Poll(s, n))
  {
    hide Frames, Slot, OnlyLastReady, Delivered, ArcHolds;
    if !s.pending && n > 0 && s.fifo != [] {
      var m := Min(Min(n, |s.fifo|), |s.rxBuf| - s.rxPos);
      var r := Poll(s, n);
      assert r.rxBuf[..r.rxPos] == s.rxBuf[..s.rxPos] + s.fifo[..m];
      Regroup(s.rxBuf[..s.rxPos], s.fifo, m, s.owed);
    }
  }

  /** The test of the last descriptor is exact: not READY means nothing is in flight. */
  lemma LastReadyIffFlight(s: Rx)
    requires Inv(s)
    ensures IsReady(LoadWord(s.descrs[s.last])) <==> InFlight(s)
  {
    hide Frames, Slot;
    ReadyByte(s.descrs[s.last]);
    if InFlight(s) {
      WordRoundTrip(s.accepted[|s.received|]);
      hide TopBitSet, PublishedWord, StoreWord, LoadWord, IsReady, ArcWord, ArcLen, ArcCid, ArcOffset;
    }
  }

  lemma CheckInv(s: Rx)
    requires Inv(s) && s.pod.Checking?
    ensures Inv(Check(s))
  {
    hide Frames, LoadWord, IsReady, Slot, OnlyLastReady, Delivered, ArcHolds, FrameLen;
    LastReadyIffFlight(s);
    assert s.buf[..0] == s.rxBuf[HEADER..HEADER];
  }

  lemma StoreInv(s: Rx)
    requires Inv(s) && s.pod.Storing?
    ensures Inv(Store(s, s.pod.i))
  {
    hide Frames, Slot, OnlyLastReady, ArcHolds;
    StoreGrows(s.buf, s.rxBuf, s.pod.i);
  }

  lemma StoreGrows<T>(a: seq<T>, b: seq<T>, i: nat)
    requires i < |a| && HEADER + i < |b| && a[..i] == b[HEADER..HEADER + i]
    ensures a[i := b[HEADER + i]][..i + 1] == b[HEADER..HEADER + i + 1]
  {
    assert a[i := b[HEADER + i]][..i + 1] == a[..i] + [b[HEADER + i]];
    assert b[HEADER..HEADER + i + 1] == b[HEADER..HEADER + i] + [b[HEADER + i]];
  }

  /** The frame at the front is the next one given. */
  lemma FrontIsNext(s: Rx)
    requires Shape(s) && Order(s) && Conserved(s) && FrontComplete(s)
    requires !s.pod.Advancing? && !s.pod.Finishing? && !s.pod.Faulted?
    ensures |s.accepted| < |s.given| && FrontPacket(s) == s.given[|s.accepted|] && Legal(FrontPacket(s))
    ensures s.accepted + [FrontPacket(s)] <= s.given
    ensures s.rxBuf[FrontLen(s)..s.rxPos] + (s.fifo + s.owed) == Frames(s.given[|s.accepted| + 1..])
  {
    var gs := s.given[|s.accepted|..];
    var held := s.rxBuf[..s.rxPos];
    LegalSized(gs);
    assert FrameLen(held) == FrontLen(s) && Complete(held, HEADER);
    NextFrame(held, s.fifo + s.owed, gs);
    assert FirstPacket(held) == FrontPacket(s);
    assert held[FrontLen(s)..] == s.rxBuf[FrontLen(s)..s.rxPos];
    assert gs[1..] == s.given[|s.accepted| + 1..];
  }

  lemma PublishSlots(descrs: seq<Descr>, last: nat, head: nat, d: Descr)
    requires head < |descrs| && OnlyLastReady(descrs, false, last)
    ensures OnlyLastReady(descrs[head := d], true, head)
  {
    hide TopBitSet;
  }

  lemma PublishInv(s: Rx)
    requires Inv(s) && s.pod.Publishing?
    ensures Inv(Publish(s))
  {
    hide Frames, PublishedWord, StoreWord, Slot, OnlyLastReady, ArcHolds, FrameLen;
    FrontIsNext(s);
    PublishSlots(s.descrs, s.last, s.head, StoreWord(PublishedWord(s.rxBuf[0], FrontLen(s) - HEADER)));
  }

  lemma AdvanceInv(s: Rx)
    requires Inv(s) && s.pod.Advancing?
    ensures Inv(Advance(s))
  {
    hide Frames, Slot, NextSlot, OnlyLastReady, Delivered, ArcHolds;
    MaskedStep(|s.accepted| - 1, s.ringBits);
  }

  lemma FinishInv(s: Rx)
    requires Inv(s) && s.pod.Finishing?
    ensures Inv(Finish(s))
  {
    hide Frames, Slot, MoveExcess, OnlyLastReady, Delivered, ArcHolds;
    if s.rxPos > FrontLen(s) { ShuffleExact(s.form, s.rxBuf, s.rxPos, FrontLen(s)); }
  }

  lemma PodInv(s: Rx, n: nat)
    requires Inv(s)
    ensures Inv(PodStep(s, n))
  {
    match s.pod
    case Resting => PollInv(s, n);
    case Checking => CheckInv(s);
    case Storing(i) => StoreInv(s);
    case Publishing => PublishInv(s);
    case Advancing => AdvanceInv(s);
    case Finishing => FinishInv(s);
    case Faulted =>
  }

  lemma StepInv(s: Rx, a: Action)
    requires Inv(s)
    ensures Inv(Step(s, a))
  {
    match a
    case Send(p) => SendInv(s, p);
    case Write(n) => WriteInv(s, n);
    case Receive => if s.arc.Idle? { ArcRegisters(s, Polling); }
    case Arc => ArcInv(s);
    case Pod(n) => PodInv(s, n);
  }

  lemma {:induction false} RunInv(s: Rx, acts: seq<Action>)
    requires Inv(s)
    ensures Inv(Run(s, acts))
    decreases |acts|
  {
    if |acts| > 0 {
      StepInv(s, acts[0]);
      RunInv(Step(s, acts[0]), acts[1..]);
    }
  }

  // ---- Runs in pieces

  lemma {:induction false} RunAppend(s: Rx, a: seq<Action>, b: seq<Action>)
    requires Shape(s)
    ensures Run(s, a + b) == Run(Run(s, a), b)
    decreases |a|
  {
    hide Step, Shape;
    if |a| == 0 {
      assert a + b == b;
    } else {
      assert (a + b)[0] == a[0] && (a + b)[1..] == a[1..] + b;
      RunAppend(Step(s, a[0]), a[1..], b);
    }
  }

  /** Steps of everyone but the Archimedes. */
  predicate Others(acts: seq<Action>) { forall i :: 0 <= i < |acts| ==> !acts[i].Arc? && !acts[i].Receive? }

  lemma OtherKeeps(s: Rx, a: Action)
    requires Shape(s) && !a.Arc? && !a.Receive?
    ensures var r := Step(s, a);
      r.arc == s.arc && r.tail == s.tail && r.received == s.received && r.ringBits == s.ringBits
  {
    hide FrameLen, StoreWord, PublishedWord, NextSlot, LoadWord, IsReady;
  }

  lemma {:induction false} OthersKeep(s: Rx, acts: seq<Action>)
    requires Shape(s) && Others(acts)
    ensures var r := Run(s, acts);
      r.arc == s.arc && r.tail == s.tail && r.received == s.received && r.ringBits == s.ringBits
    decreases |acts|
  {
    hide Step, Shape;
    if |acts| > 0 {
      OtherKeeps(s, acts[0]);
      OthersKeep(Step(s, acts[0]), acts[1..]);
    }
  }

  // ---- Main results for the receive direction

  /** However the steps interleave, however the link cuts the stream, and however long a
      descriptor is left unconsumed, pipe_packet_rx returns packets that were given to
      send_packet, in order, byte for byte; and all that is not yet returned is still in the ring
      (one packet), in the reassembly buffer, in the link or in the server's buffer. The last part
      is so of every run with the excess subtraction as intended, and as written of the runs that
      never consume a frame with bytes behind it. */
  lemma ReceiveSafety(s: Rx, acts: seq<Action>)
    requires Initial(s)
    ensures var r := Run(s, acts);
      && r.received <= r.accepted <= r.given && |r.accepted| <= |r.received| + 1
      && (r.pod.Faulted? <==> s.form.AsWritten? && !Spared(s, acts))
      && (s.form.Intended? || Spared(s, acts) ==>
            Frames(r.given) == Frames(r.accepted) + (Held(r) + (r.fifo + r.owed)))
  {
    InitialInv(s);
    RunInv(s, acts);
    RunFaultExact(s, acts);
    var r := Run(s, acts);
    hide Run, Inv, Spared;
    assert r.given == r.accepted + r.given[|r.accepted|..];
    FramesAppend(r.accepted, r.given[|r.accepted|..]);
  }

  /** When nothing is on its way any more, everything given has been received. */
  lemma NothingLost(s: Rx, acts: seq<Action>)
    requires Initial(s)
    ensures var r := Run(s, acts);
      s.form.Intended? || Spared(s, acts) ==>
        !InFlight(r) && Held(r) == [] && r.fifo == [] && r.owed == [] ==> r.received == r.given
  {
    ReceiveSafety(s, acts);
    InitialInv(s);
    RunInv(s, acts);
    var r := Run(s, acts);
    hide Run, Frame, Spared;
    if (s.form.Intended? || Spared(s, acts)) && !InFlight(r) && Held(r) == [] && r.fifo == [] && r.owed == [] {
      var gs := r.given[|r.accepted|..];
      assert Frames(gs) == [];
      FramesEmpty(gs);
    }
  }

  lemma FrameNonEmpty(p: Packet)
    ensures |Frame(p)| >= HEADER
  {}

  lemma FramesEmpty(ps: seq<Packet>)
    ensures Frames(ps) == [] <==> ps == []
  {
    if |ps| > 0 { FrameNonEmpty(ps[0]); }
    hide Frame;
  }

  /** While a packet is in flight the podule writes neither the buffer nor a descriptor, so the
      Archimedes copies out one packet undisturbed, however long it takes. */
  lemma BufferExclusive(s: Rx, n: nat)
    requires Inv(s) && InFlight(s)
    ensures PodStep(s, n).buf == s.buf && PodStep(s, n).descrs == s.descrs
  {
    hide Frames, OnlyLastReady, Delivered, ArcHolds, NextSlot, LoadWord, IsReady, MoveExcess;
  }

  /** The 515-byte reassembly buffer is never full without a whole frame at its front, and the
      guard against oversized packets is never the one that fires. */
  lemma Capacity(s: Rx)
    requires Inv(s) && (s.pod.Resting? || s.pod.Checking?)
    ensures s.rxPos == |s.rxBuf| ==> FrontComplete(s)
    ensures s.pending ==> FrontComplete(s)
    ensures FrontComplete(s) ==> HEADER < FrontLen(s) <= HEADER + BUFFER_SIZE
  {
    var gs, held := s.given[|s.accepted|..], s.rxBuf[..s.rxPos];
    if s.rxPos >= HEADER {
      LegalSized(gs);
      NextHeader(held, s.fifo + s.owed, gs);
      assert FrameLen(held) == FrontLen(s);
      assert Legal(gs[0]);
    }
  }

  /** The indices on both sides are the unbounded counts of packets accepted and received modulo the
      ring size, and the counts are at most one apart. */
  lemma RingsFollowCounts(s: Rx, acts: seq<Action>)
    requires Initial(s)
    ensures var r := Run(s, acts);
      && |r.received| <= |r.accepted| <= |r.received| + 1
      && r.tail == Slot(|r.received|, r.ringBits)
      && (!r.pod.Advancing? ==> r.head == Slot(|r.accepted|, r.ringBits))
      && (r.pod.Advancing? ==> |r.accepted| >= 1 && r.head == Slot(|r.accepted| - 1, r.ringBits))
      && (|r.accepted| > 0 ==> r.last == Slot(|r.accepted| - 1, r.ringBits))
  {
    InitialInv(s);
    RunInv(s, acts);
    hide Run, Conserved, Flight, PodProgress, Slot;
  }

  // ---- The excess shuffle over whole runs

  /** One frame consumed: the source's subtraction goes wrong exactly when bytes of the next
      frame have been read already. */
  lemma FaultExact(s: Rx)
    requires Shape(s) && s.pod.Finishing?
    ensures Finish(s).pod.Faulted? <==> s.form.AsWritten? && s.rxPos > FrontLen(s)
  {
    if s.rxPos > FrontLen(s) { ShuffleExact(s.form, s.rxBuf, s.rxPos, FrontLen(s)); }
    hide MoveExcess;
  }

  lemma StepFault(s: Rx, a: Action)
    requires Shape(s)
    ensures Step(s, a).form == s.form
    ensures Step(s, a).pod.Faulted? <==> s.pod.Faulted? || (a.Pod? && s.pod.Finishing? && Finish(s).pod.Faulted?)
  {
    hide Finish, LoadWord, IsReady, NextSlot, Frame, FrameLen, StoreWord, PublishedWord, Get, Fetch;
  }

  /** A step that does not consume a frame with bytes of the next one behind it: the branch with the
      excess subtraction is not taken. */
  predicate Spares(s: Rx, a: Action)
    requires Shape(s)
  {
    a.Pod? && s.pod.Finishing? ==> s.rxPos <= FrontLen(s)
  }

  predicate Spared(s: Rx, acts: seq<Action>)
    requires Shape(s)
    decreases |acts|
  {
    |acts| > 0 ==> Spares(s, acts[0]) && Spared(Step(s, acts[0]), acts[1..])
  }

  lemma StepFaultExact(s: Rx, a: Action)
    requires Shape(s)
    ensures Step(s, a).form == s.form
    ensures Step(s, a).pod.Faulted? <==> s.pod.Faulted? || (s.form.AsWritten? && !Spares(s, a))
  {
    StepFault(s, a);
    if s.pod.Finishing? { FaultExact(s); }
    hide Step, Finish, FrameLen, Shape;
  }

  /** Over whole runs: the reassembly runs out of its array if and only if the subtraction is as
      written and some frame is consumed with bytes of the next one behind it. */
  lemma {:induction false} RunFaultExact(s: Rx, acts: seq<Action>)
    requires Shape(s)
    ensures Run(s, acts).pod.Faulted? <==> s.pod.Faulted? || (s.form.AsWritten? && !Spared(s, acts))
    decreases |acts|
  {
    hide Step, Spares, Shape;
    if |acts| > 0 {
      StepFaultExact(s, acts[0]);
      RunFaultExact(Step(s, acts[0]), acts[1..]);
    }
  }

  /** With the subtraction the comment asks for, no run faults. */
  lemma {:induction false} IntendedNeverFaults(s: Rx, acts: seq<Action>)
    requires Shape(s) && s.form.Intended? && !s.pod.Faulted?
    ensures !Run(s, acts).pod.Faulted?
    decreases |acts|
  {
    if |acts| > 0 {
      StepFault(s, acts[0]);
      if s.pod.Finishing? { FaultExact(s); }
      IntendedNeverFaults(Step(s, acts[0]), acts[1..]);
    }
  }

  /** The server gives a packet only when everything it gave before has been received. */
  predicate OneAtATime(s: Rx, acts: seq<Action>)
    requires Shape(s)
    decreases |acts|
  {
    |acts| > 0 ==>
      && (acts[0].Send? ==> s.received == s.given)
      && OneAtATime(Step(s, acts[0]), acts[1..])
  }

  /** At most one packet given and not received; nothing read beyond the frame being consumed; no whole
      frame left without a note of it. */
  predicate Solo(s: Rx)
    requires Shape(s)
  {
    && |s.given| <= |s.received| + 1 && !s.pod.Faulted?
    && (s.pod.Advancing? || s.pod.Finishing? ==> s.rxPos == FrontLen(s))
    && (s.pod.Resting? && FrontComplete(s) ==> s.pending)
  }

  lemma SoloPublish(s: Rx)
    requires Inv(s) && Solo(s) && s.pod.Publishing?
    ensures Solo(Publish(s))
  {
    hide Frames, PublishedWord, StoreWord, Slot, OnlyLastReady, ArcHolds, FrameLen, Delivered;
    FrontIsNext(s);
    assert s.accepted == s.received;
    assert s.given[|s.accepted| + 1..] == [];
    NoFrames();
  }

  lemma NoFrames()
    ensures Frames([]) == []
  {}

  lemma SoloFinish(s: Rx)
    requires Inv(s) && Solo(s) && s.pod.Finishing?
    ensures Solo(Finish(s))
  {
    FaultExact(s);
    hide FrameLen, MoveExcess;
  }

  /** The oversize branch of pipe_rx_packet would also skip to the shuffle; it cannot fire. */
  lemma SoloCheck(s: Rx)
    requires Inv(s) && Solo(s) && s.pod.Checking?
    ensures Solo(Check(s))
  {
    Capacity(s);
    hide FrameLen, LoadWord, IsReady;
  }

  lemma SoloArc(s: Rx)
    requires Shape(s) && Solo(s)
    ensures Solo(ArcStep(s))
  {
    hide FrameLen, Get, Fetch, NextSlot, Shape;
  }

  /** The steps of the podule that neither take a packet nor give up one. */
  lemma SoloPod(s: Rx, n: nat)
    requires Shape(s) && Solo(s) && (s.pod.Resting? || s.pod.Storing? || s.pod.Advancing?)
    ensures Solo(PodStep(s, n))
  {
    hide FrameLen, NextSlot;
  }

  lemma SoloStep(s: Rx, a: Action)
    requires Inv(s) && Solo(s) && (a.Send? ==> s.received == s.given)
    ensures Solo(Step(s, a))
  {
    hide ArcStep, FrameLen, Poll, Check, Store, Publish, Advance, Finish;
    match a
    case Send(p) =>
    case Write(n) =>
    case Receive =>
    case Arc => SoloArc(s);
    case Pod(n) =>
      match s.pod {
        case Checking => SoloCheck(s);
        case Publishing => SoloPublish(s);
        case Finishing => SoloFinish(s);
        case Faulted =>
        case _ => SoloPod(s, n);
      }
  }

  lemma SoloSpares(s: Rx, a: Action)
    requires Shape(s) && Solo(s)
    ensures Spares(s, a)
  {}

  /** As written, the code is safe with a server that never has two packets under way: no run in
      which each packet is given after the previous one was received faults. */
  lemma {:induction false} OneAtATimeNeverFaults(s: Rx, acts: seq<Action>)
    requires Inv(s) && Solo(s) && OneAtATime(s, acts)
    ensures Inv(Run(s, acts)) && Solo(Run(s, acts)) && Spared(s, acts)
    decreases |acts|
  {
    if |acts| > 0 {
      SoloSpares(s, acts[0]);
      StepInv(s, acts[0]);
      SoloStep(s, acts[0]);
      hide Inv, Solo, Step, Spares;
      OneAtATimeNeverFaults(Step(s, acts[0]), acts[1..]);
    }
  }
}
