/** The transmit direction through shared memory, as a protocol between two processors with no
    lock. Every bus access of the Archimedes is one step; every descriptor access of the podule
    is one step; the podule's memcpy is one step a byte. An action list fixes how the steps
    interleave, how many bytes the USB FIFO takes each time, and when USB goes up or down. */
module TxPipe {
  import opened Bits
  import opened PoduleRegs
  import opened Framing

  /** The arguments of pipe_packet_tx: channel register and data. */
  datatype Call = Call(cid: Word32, data: seq<Byte>)

  predicate Legal(c: Call) { 1 <= |c.data| <= BUFFER_SIZE }

  /** The packet a call asks for; the descriptor holds seven channel bits. */
  function PacketOf(c: Call): Packet { Packet(c.cid % 0x80, c.data) }

  /** pipe_tx_start drops a packet whose end reaches the end of the buffer. */
  predicate Fits(c: Call) { |c.data| < BUFFER_SIZE }

  function Carried(cs: seq<Call>): seq<Packet> {
    if |cs| == 0 then []
    else Carried(cs[..|cs| - 1]) + (if Fits(cs[|cs| - 1]) then [PacketOf(cs[|cs| - 1])] else [])
  }

  datatype ArcTx =
    | Idle
    | Filling(call: Call, i: nat)
    | Publishing(call: Call, r9: nat, k: nat)
    | Polling(call: Call)

  datatype PodTx =
    | Resting
    | Sampled(up: bool)
    | Copying(len: nat, addr: nat, i: nat)
    | Retiring
    | Clearing(word: Word32)
    | Advancing

  datatype Tx = Tx(
    ringBits: nat,
    // shared memory
    descrs: seq<Descr>, buf: seq<Byte>, tail: nat,
    // Archimedes
    arc: ArcTx, head: nat,
    // podule
    pod: PodTx, ongoing: bool, total: nat, pos: nat, txBuf: seq<Byte>,
    // USB, and the history of the run
    connected: bool, steady: bool, wire: seq<Byte>, calls: seq<Call>, retired: nat)

  datatype Action = Submit(call: Call) | Arc | Pod(accept: nat) | Usb(up: bool)

  predicate Shape(s: Tx) {
    && |s.descrs| == Pow2(s.ringBits) && s.head < |s.descrs| && s.tail < |s.descrs|
    && |s.buf| == BUFFER_SIZE && |s.txBuf| == BUFFER_SIZE + HEADER_SIZE
    && (s.arc.Filling? ==> Legal(s.arc.call) && s.arc.i < |s.arc.call.data|)
    && (s.arc.Publishing? ==> s.arc.k < 4)
    && (s.pod.Copying? ==> s.pod.addr + s.pod.len < BUFFER_SIZE && s.pod.i <= s.pod.len)
    && (s.ongoing ==> s.pos <= s.total <= |s.txBuf|)
  }

  function SetByte(d: Descr, k: nat, b: Byte): Descr
    requires k < 4
  {
    match k
    case 0 => d.(b0 := b)
    case 1 => d.(b1 := b)
    case 2 => d.(b2 := b)
    case 3 => d.(b3 := b)
  }

  lemma NextInRing(i: nat, k: nat)
    ensures NextSlot(i, k) < Pow2(k)
  {}

  // ---- Steps of the Archimedes

  function Begin(s: Tx, c: Call): Tx
    requires Shape(s)
  {
    if s.arc.Idle? && Legal(c) then s.(arc := Filling(c, 0), calls := s.calls + [c]) else s
  }

  /** The podule's own state, the link and the history stay as they are. */
  predicate ArcOnly(s: Tx, r: Tx) {
    && r.tail == s.tail && r.pod == s.pod && r.ongoing == s.ongoing && r.total == s.total && r.pos == s.pos
    && r.txBuf == s.txBuf && r.connected == s.connected && r.steady == s.steady && r.wire == s.wire
    && r.calls == s.calls && r.retired == s.retired
  }

  function ArcStep(s: Tx): (r: Tx)
    requires Shape(s)
    ensures Shape(r) && ArcOnly(s, r)
  {
    match s.arc
    case Idle => s
    case Filling(c, i) =>
      var t := s.(buf := s.buf[i := c.data[i]]);
      if i + 1 < |c.data| then t.(arc := Filling(c, i + 1))
      else t.(arc := Publishing(c, ArcDescr(c.cid, |c.data|), 0))
    case Publishing(c, r9, k) =>
      var t := s.(descrs := s.descrs[s.head := SetByte(s.descrs[s.head], k, r9 % 0x100)]);
      if k < 3 then t.(arc := Publishing(c, r9 / 0x100, k + 1)) else t.(arc := Polling(c))
    case Polling(c) =>
      if TopBitSet(s.descrs[s.head].b3) then s
      else s.(arc := Idle, head := NextSlot(s.head, s.ringBits))
  }

  // ---- Steps of the podule's pipe_poll

  /** Only the podule's own state, and what it put on the wire, may differ. */
  predicate PoduleOnly(s: Tx, r: Tx) {
    && r.ringBits == s.ringBits && r.descrs == s.descrs && r.buf == s.buf && r.tail == s.tail && r.arc == s.arc
    && r.head == s.head
    && r.connected == s.connected && r.steady == s.steady && r.calls == s.calls && r.retired == s.retired
  }

  /** pipe_tx_start up to its memcpy. */
  function Start(s: Tx, cid: Byte, len: nat, addr: nat): (r: Tx)
    requires Shape(s)
    ensures Shape(r) && PoduleOnly(s, r) && r.wire == s.wire
  {
    if addr + len >= BUFFER_SIZE then s.(pod := Retiring)
    else s.(txBuf := Header(cid, len) + s.txBuf[HEADER_SIZE..],
            pod := Copying(len, addr, 0))
  }

  /** pipe_tx_continue. */
  function Continue(s: Tx, accept: nat): (r: Tx)
    requires Shape(s) && s.ongoing
    ensures Shape(r) && PoduleOnly(s, r) && s.wire <= r.wire
  {
    var pos := s.pos + Min(accept, s.total - s.pos);
    var t := s.(wire := s.wire + s.txBuf[s.pos..pos], pos := pos);
    if pos >= s.total then t.(ongoing := false, pod := Retiring) else t.(pod := Resting)
  }

  /** pipe_tx_start from the end of its memcpy. */
  function Launch(s: Tx, len: nat, accept: nat): (r: Tx)
    requires Shape(s) && len < BUFFER_SIZE
    ensures Shape(r) && PoduleOnly(s, r) && s.wire <= r.wire
  {
    var total := len + HEADER_SIZE;
    var n := Min(accept, total);
    var t := s.(total := total, wire := s.wire + s.txBuf[..n]);
    if n == total then t.(ongoing := false, pod := Retiring)
    else t.(ongoing := true, pos := n, pod := Resting)
  }

  function CheckRegisters(s: Tx, up: bool): (r: Tx)
    requires Shape(s)
    ensures Shape(r) && PoduleOnly(s, r) && r.wire == s.wire
  {
    var w := LoadWord(s.descrs[s.tail]);
    if !IsReady(w) then s.(pod := Resting)
    else if up then Start(s, CidField(w) % 0x100, SizeField(w), AddrField(w))
    else s.(pod := Retiring)
  }

  function PodStep(s: Tx, accept: nat): (r: Tx)
    requires Shape(s)
    ensures Shape(r) && r.steady == s.steady && r.calls == s.calls
  {
    match s.pod
    case Resting => s.(pod := Sampled(s.connected))
    case Sampled(up) =>
      if !s.ongoing then CheckRegisters(s, up)
      else if up then Continue(s, accept)
      else s.(ongoing := false, pod := Resting)
    case Copying(len, addr, i) =>
      if i < len then s.(txBuf := s.txBuf[HEADER_SIZE + i := s.buf[addr + i]], pod := Copying(len, addr, i + 1))
      else Launch(s, len, accept)
    case Retiring => s.(pod := Clearing(LoadWord(s.descrs[s.tail])))
    case Clearing(w) =>
      s.(descrs := s.descrs[s.tail := StoreWord(ClearReady(w))], retired := s.retired + 1, pod := Advancing)
    case Advancing => s.(tail := NextSlot(s.tail, s.ringBits), pod := Resting)
  }

  function Step(s: Tx, a: Action): (r: Tx)
    requires Shape(s)
    ensures Shape(r)
  {
    match a
    case Submit(c) => Begin(s, c)
    case Arc => ArcStep(s)
    case Pod(accept) => PodStep(s, accept)
    case Usb(up) => s.(connected := up, steady := s.steady && up)
  }

  function Run(s: Tx, acts: seq<Action>): (r: Tx)
    requires Shape(s)
    ensures Shape(r)
    decreases |acts|
  {
    if |acts| == 0 then s else Run(Step(s, acts[0]), acts[1..])
  }

  /** pipe_init on the podule and module start on the Archimedes: the buffers hold anything. */
  predicate Initial(s: Tx) {
    && Shape(s)
    && (forall j :: 0 <= j < |s.descrs| ==> s.descrs[j] == Descr(0, 0, 0, 0))
    && s.tail == 0 && s.head == 0 && s.arc.Idle? && s.pod.Resting? && !s.ongoing
    && s.steady == s.connected && s.wire == [] && s.calls == [] && s.retired == 0
  }

  // ---- The invariant

  function WordFor(c: Call): (w: Word32)
    requires Legal(c)
    ensures IsReady(w) && AddrField(w) == 0 && SizeField(w) == |c.data| && CidField(w) == c.cid % 0x80
  {
    TxCodec(c.cid, |c.data|);
    ArcDescr(c.cid, |c.data|)
  }

  /** r9 after k bytes of the word have been shifted out. */
  function Remaining(w: Word32, k: nat): nat {
    if k == 0 then w else Remaining(w, k - 1) / 0x100
  }

  predicate BytesWritten(d: Descr, full: Descr, k: nat) {
    && (k > 0 ==> d.b0 == full.b0) && (k > 1 ==> d.b1 == full.b1)
    && (k > 2 ==> d.b2 == full.b2) && (k > 3 ==> d.b3 == full.b3)
  }

  /** A call has been published and the podule has not yet cleared its descriptor. */
  predicate Pending(s: Tx) { s.arc.Polling? && s.retired + 1 == |s.calls| }

  function Completed(s: Tx): int { if s.arc.Idle? then |s.calls| else |s.calls| - 1 }

  /** The indices on both sides are the unbounded counts modulo the ring size, and producer and
      consumer are at most one packet apart. */
  predicate Counters(s: Tx) {
    && Completed(s) >= 0 && s.head == Slot(Completed(s), s.ringBits)
    && (if s.arc.Polling? then Completed(s) <= s.retired <= Completed(s) + 1 else s.retired == Completed(s))
    && (s.pod.Advancing? ==> s.retired >= 1)
    && s.tail == Slot(if s.pod.Advancing? then s.retired - 1 else s.retired, s.ringBits)
  }

  predicate OnlyHeadReady(s: Tx)
    requires Shape(s)
  {
    forall j :: 0 <= j < |s.descrs| && TopBitSet(s.descrs[j].b3) ==> Pending(s) && j == s.head
  }

  predicate LastCall(s: Tx) {
    !s.arc.Idle? ==> |s.calls| > 0 && s.arc.call == s.calls[|s.calls| - 1] && Legal(s.arc.call)
  }

  predicate Published(s: Tx)
    requires Shape(s) && LastCall(s)
  {
    Pending(s) ==>
      var c := s.arc.call;
      s.descrs[s.head] == StoreWord(WordFor(c)) && s.buf[..|c.data|] == c.data
  }

  predicate ArcProgress(s: Tx)
    requires Shape(s) && LastCall(s)
  {
    match s.arc
    case Idle => true
    case Filling(c, i) => s.buf[..i] == c.data[..i]
    case Publishing(c, r9, k) =>
      && s.buf[..|c.data|] == c.data
      && r9 == Remaining(WordFor(c), k)
      && BytesWritten(s.descrs[s.head], StoreWord(WordFor(c)), k)
    case Polling(c) => true
  }

  predicate PodProgress(s: Tx)
    requires Shape(s) && LastCall(s)
  {
    if !Pending(s) then (s.pod.Resting? || s.pod.Sampled? || s.pod.Advancing?) && !s.ongoing
    else
      var c := s.arc.call;
      var f := Frame(PacketOf(c));
      && (s.pod.Copying? ==>
            && s.pod.len == |c.data| && s.pod.addr == 0 && Fits(c)
            && s.txBuf[..HEADER_SIZE + s.pod.i] == f[..HEADER_SIZE + s.pod.i])
      && (s.pod.Clearing? ==> s.pod.word == WordFor(c))
      && (s.ongoing ==>
            && (s.pod.Resting? || s.pod.Sampled?) && Fits(c)
            && s.total == |f| && s.pos < s.total && s.txBuf[..s.total] == f)
  }

  predicate Inv(s: Tx) {
    && Shape(s) && Counters(s) && OnlyHeadReady(s) && LastCall(s)
    && Published(s) && ArcProgress(s) && PodProgress(s)
  }

  lemma InitialInv(s: Tx)
    requires Initial(s)
    ensures Inv(s)
  {
    TopBit(0);
  }

  lemma BeginInv(s: Tx, c: Call)
    requires Inv(s)
    ensures Inv(Begin(s, c))
  {
    hide StoreWord, LoadWord, ClearReady, IsReady, TopBitSet, SizeField, AddrField, CidField, WordFor, NextSlot, Slot;
  }

  lemma PrefixGrows<T>(a: seq<T>, b: seq<T>, i: nat)
    requires i < |a| && i < |b| && a[..i] == b[..i]
    ensures a[i := b[i]][..i + 1] == b[..i + 1]
  {}

  lemma FillInv(s: Tx)
    requires Inv(s) && s.arc.Filling?
    ensures Inv(ArcStep(s))
  {
    hide StoreWord, LoadWord, ClearReady, IsReady, TopBitSet, SizeField, AddrField, CidField, ArcDescr, NextSlot, Slot;
    var c, i := s.arc.call, s.arc.i;
    PrefixGrows(s.buf, c.data, i);
    assert c.data[..|c.data|] == c.data;
  }

  lemma PublishBytes(w: Word32, d: Descr, k: nat)
    requires k < 4 && BytesWritten(d, StoreWord(w), k)
    ensures BytesWritten(SetByte(d, k, Remaining(w, k) % 0x100), StoreWord(w), k + 1)
  {
    assert Remaining(w, 1) == w / 0x100;
    assert Remaining(w, 2) == w / 0x100 / 0x100;
    assert Remaining(w, 3) == w / 0x100 / 0x100 / 0x100;
  }

  lemma PublishInv(s: Tx)
    requires Inv(s) && s.arc.Publishing?
    ensures Inv(ArcStep(s))
  {
    hide StoreWord, LoadWord, ClearReady, IsReady, TopBitSet, SizeField, AddrField, CidField, WordFor, NextSlot, Slot;
    var r := ArcStep(s);
    var c, k := s.arc.call, s.arc.k;
    PublishBytes(WordFor(c), s.descrs[s.head], k);
    assert r.descrs[r.head] == SetByte(s.descrs[s.head], k, Remaining(WordFor(c), k) % 0x100);
  }

  lemma PollInv(s: Tx)
    requires Inv(s) && s.arc.Polling?
    ensures Inv(ArcStep(s))
  {
    hide StoreWord, LoadWord, ClearReady, IsReady, TopBitSet, SizeField, AddrField, CidField, WordFor, NextSlot, Slot;
    MaskedStep(Completed(s), s.ringBits);
    if Pending(s) { ReadyTop(WordFor(s.arc.call)); }
  }

  lemma ReadyTop(w: Word32)
    ensures IsReady(w) <==> TopBitSet(StoreWord(w).b3)
    ensures !TopBitSet(StoreWord(ClearReady(w)).b3)
  {
    StoreLoad(w);
    ReadyByte(StoreWord(w));
  }

  lemma ContinueInv(s: Tx, accept: nat)
    requires Inv(s) && s.pod.Sampled? && s.ongoing
    ensures Inv(Continue(s, accept))
  {
    hide StoreWord, LoadWord, ClearReady, IsReady, TopBitSet, SizeField, AddrField, CidField, WordFor, NextSlot, Slot;
  }

  /** What the podule finds when it samples the tail descriptor: nothing, or a whole
      publication. */
  lemma SampleInv(s: Tx)
    requires Inv(s) && (s.pod.Resting? || s.pod.Sampled?)
    ensures s.tail == Slot(s.retired, s.ringBits)
    ensures Pending(s) ==> s.tail == s.head && LoadWord(s.descrs[s.tail]) == WordFor(s.arc.call)
    ensures !Pending(s) ==> !IsReady(LoadWord(s.descrs[s.tail]))
  {
    hide StoreWord, LoadWord, ClearReady, IsReady, TopBitSet, SizeField, AddrField, CidField, WordFor, NextSlot, Slot;
    ReadyByte(s.descrs[s.tail]);
    if Pending(s) { StoreLoad(WordFor(s.arc.call)); }
  }

  lemma HeaderFirst(p: Packet, t: seq<Byte>)
    requires |t| >= HEADER_SIZE
    ensures var b := Header(p.cid, |p.payload|) + t[HEADER_SIZE..];
      |b| == |t| && b[..HEADER_SIZE] == Frame(p)[..HEADER_SIZE]
  {}

  lemma StartCopyInv(s: Tx, b: seq<Byte>)
    requires Inv(s) && s.pod.Sampled? && !s.ongoing && Pending(s) && Fits(s.arc.call)
    requires |b| == |s.txBuf| && b[..HEADER_SIZE] == Frame(PacketOf(s.arc.call))[..HEADER_SIZE]
    ensures Inv(s.(txBuf := b, pod := Copying(|s.arc.call.data|, 0, 0)))
  {
    hide StoreWord, LoadWord, ClearReady, IsReady, TopBitSet, SizeField, AddrField, CidField, WordFor, NextSlot, Slot;
  }

  lemma StartInv(s: Tx)
    requires Inv(s) && s.pod.Sampled? && !s.ongoing && Pending(s)
    ensures Inv(Start(s, s.arc.call.cid % 0x80, |s.arc.call.data|, 0))
  {
    hide StoreWord, LoadWord, ClearReady, IsReady, TopBitSet, SizeField, AddrField, CidField, WordFor, NextSlot, Slot;
    var c := s.arc.call;
    if Fits(c) {
      HeaderFirst(PacketOf(c), s.txBuf);
      StartCopyInv(s, Header(c.cid % 0x80, |c.data|) + s.txBuf[HEADER_SIZE..]);
    }
  }

  lemma CheckInv(s: Tx, up: bool)
    requires Inv(s) && s.pod.Sampled? && !s.ongoing
    ensures Inv(CheckRegisters(s, up))
  {
    hide StoreWord, LoadWord, ClearReady, IsReady, TopBitSet, SizeField, AddrField, CidField, WordFor, NextSlot, Slot;
    SampleInv(s);
    if Pending(s) { StartInv(s); }
  }

  lemma CopyInv(s: Tx, accept: nat)
    requires Inv(s) && s.pod.Copying? && s.pod.i < s.pod.len
    ensures Inv(PodStep(s, accept))
  {
    hide StoreWord, LoadWord, ClearReady, IsReady, TopBitSet, SizeField, AddrField, CidField, WordFor, NextSlot, Slot;
    var r := PodStep(s, accept);
    var c, i := s.arc.call, s.pod.i;
    var f := Frame(PacketOf(c));
    var at := HEADER_SIZE + i;
    assert f[at] == c.data[i] == s.buf[..|c.data|][i];
    assert r.txBuf[..at + 1] == s.txBuf[..at] + [f[at]];
    assert f[..at + 1] == f[..at] + [f[at]];
  }

  lemma LaunchInv(s: Tx, accept: nat)
    requires Inv(s) && s.pod.Copying? && s.pod.i == s.pod.len
    ensures s.txBuf[..s.pod.len + HEADER_SIZE] == Frame(PacketOf(s.arc.call))
    ensures Inv(Launch(s, s.pod.len, accept))
  {
    hide StoreWord, LoadWord, ClearReady, IsReady, TopBitSet, SizeField, AddrField, CidField, WordFor, NextSlot, Slot;
    var f := Frame(PacketOf(s.arc.call));
    assert f[..|f|] == f;
  }

  lemma RetireInv(s: Tx, accept: nat)
    requires Inv(s) && s.pod.Retiring?
    ensures Inv(PodStep(s, accept))
  {
    hide StoreWord, LoadWord, ClearReady, IsReady, TopBitSet, SizeField, AddrField, CidField, WordFor, NextSlot, Slot;
    StoreLoad(WordFor(s.arc.call));
  }

  lemma ClearInv(s: Tx, accept: nat)
    requires Inv(s) && s.pod.Clearing?
    ensures Inv(PodStep(s, accept))
  {
    hide StoreWord, LoadWord, ClearReady, IsReady, TopBitSet, SizeField, AddrField, CidField, WordFor, NextSlot, Slot;
    ReadyTop(s.pod.word);
  }

  lemma AdvanceInv(s: Tx, accept: nat)
    requires Inv(s) && s.pod.Advancing?
    ensures Inv(PodStep(s, accept))
  {
    hide StoreWord, LoadWord, ClearReady, IsReady, TopBitSet, SizeField, AddrField, CidField, WordFor, NextSlot, Slot;
    assert PodStep(s, accept).tail == Slot(s.retired, s.ringBits) by { MaskedStep(s.retired - 1, s.ringBits); }
  }

  lemma ArcInv(s: Tx)
    requires Inv(s)
    ensures Inv(ArcStep(s))
  {
    hide StoreWord, LoadWord, ClearReady, IsReady, TopBitSet, SizeField, AddrField, CidField, WordFor, NextSlot, Slot;
    match s.arc
    case Idle =>
    case Filling(c, i) => FillInv(s);
    case Publishing(c, r9, k) => PublishInv(s);
    case Polling(c) => PollInv(s);
  }

  lemma PodInv(s: Tx, n: nat)
    requires Inv(s)
    ensures Inv(PodStep(s, n))
  {
    hide StoreWord, LoadWord, ClearReady, IsReady, TopBitSet, SizeField, AddrField, CidField, WordFor, NextSlot, Slot;
    match s.pod
    case Resting =>
    case Sampled(up) => if s.ongoing { ContinueInv(s, n); } else { CheckInv(s, up); }
    case Copying(len, addr, i) => if i < len { CopyInv(s, n); } else { LaunchInv(s, n); }
    case Retiring => RetireInv(s, n);
    case Clearing(w) => ClearInv(s, n);
    case Advancing => AdvanceInv(s, n);
  }

  lemma StepInv(s: Tx, a: Action)
    requires Inv(s)
    ensures Inv(Step(s, a))
  {
    hide StoreWord, LoadWord, ClearReady, IsReady, TopBitSet, SizeField, AddrField, CidField, WordFor, NextSlot, Slot;
    match a
    case Submit(c) => BeginInv(s, c);
    case Arc => ArcInv(s);
    case Pod(n) => PodInv(s, n);
    case Usb(up) =>
  }

  lemma {:induction false} RunInv(s: Tx, acts: seq<Action>)
    requires Inv(s)
    ensures Inv(Run(s, acts))
    decreases |acts|
  {
    if |acts| > 0 {
      StepInv(s, acts[0]);
      RunInv(Step(s, acts[0]), acts[1..]);
    }
  }

  // ---- Runs in pieces

  lemma {:induction false} RunAppend(s: Tx, a: seq<Action>, b: seq<Action>)
    requires Shape(s)
    ensures Run(s, a + b) == Run(Run(s, a), b)
    decreases |a|
  {
    hide Step, Shape;
    if |a| == 0 {
      assert a + b == b;
    } else {
      assert (a + b)[0] == a[0] && (a + b)[1..] == a[1..] + b;
      RunAppend(Step(s, a[0]), a[1..], b);
    }
  }

  /** Steps of everyone but the Archimedes. */
  predicate Others(acts: seq<Action>) { forall i :: 0 <= i < |acts| ==> acts[i].Pod? || acts[i].Usb? }

  lemma OtherKeeps(s: Tx, a: Action)
    requires Shape(s) && (a.Pod? || a.Usb?)
    ensures var r := Step(s, a);
      r.arc == s.arc && r.head == s.head && r.calls == s.calls && r.ringBits == s.ringBits
  {
    hide LoadWord, StoreWord, ClearReady, NextSlot, CheckRegisters, Continue, Launch;
  }

  lemma {:induction false} OthersKeep(s: Tx, acts: seq<Action>)
    requires Shape(s) && Others(acts)
    ensures var r := Run(s, acts);
      r.arc == s.arc && r.head == s.head && r.calls == s.calls && r.ringBits == s.ringBits
    decreases |acts|
  {
    hide Step, Shape;
    if |acts| > 0 {
      OtherKeeps(s, acts[0]);
      OthersKeep(Step(s, acts[0]), acts[1..]);
    }
  }

  // ---- Main results on the descriptor queue

  /** Whenever the podule samples its tail descriptor as READY, in any run, the four bytes are one
      encoding, of the last call, and the buffer holds that call's whole payload. */
  lemma PublicationSafety(s: Tx, acts: seq<Action>)
    requires Initial(s)
    ensures var r := Run(s, acts);
      r.pod.Sampled? && !r.ongoing && IsReady(LoadWord(r.descrs[r.tail])) ==>
        && r.arc.Polling? && |r.calls| > 0
        && var c := r.calls[|r.calls| - 1];
        && Legal(c) && LoadWord(r.descrs[r.tail]) == ArcDescr(c.cid, |c.data|)
        && r.buf[..|c.data|] == c.data
  {
    InitialInv(s);
    RunInv(s, acts);
    var r := Run(s, acts);
    if r.pod.Sampled? { SampleInv(r); }
  }

  /** Nothing of the publication changes between s and r, unless r has retired it. */
  predicate Frozen(s: Tx, r: Tx) {
    && r.arc == s.arc && r.calls == s.calls && r.buf == s.buf
    && (r.retired == s.retired ==> r.descrs == s.descrs)
  }

  lemma ArcFrozen(s: Tx)
    requires Inv(s) && Pending(s)
    ensures ArcStep(s) == s
  {
    ReadyTop(WordFor(s.arc.call));
    hide StoreWord, TopBitSet, WordFor, Slot, PodProgress, OnlyHeadReady;
  }

  lemma PodFrozen(s: Tx, accept: nat)
    requires Shape(s)
    ensures Frozen(s, PodStep(s, accept))
    ensures PodStep(s, accept).retired == if s.pod.Clearing? then s.retired + 1 else s.retired
  {
    hide StoreWord, LoadWord, ClearReady, NextSlot, Start, Continue, Launch, CheckRegisters;
  }

  lemma PodWire(s: Tx, accept: nat)
    requires Shape(s)
    ensures s.wire <= PodStep(s, accept).wire
  {
    hide StoreWord, LoadWord, ClearReady, NextSlot, Start, Continue, Launch, CheckRegisters;
  }

  /** From publication until the podule clears the descriptor, no step of either side touches
      the descriptors or the buffer, and the Archimedes keeps waiting on that call. */
  lemma PublicationFrozen(s: Tx, a: Action)
    requires Inv(s) && Pending(s)
    ensures Frozen(s, Step(s, a))
    ensures Step(s, a).retired == s.retired || (a.Pod? && s.pod.Clearing? && Step(s, a).retired == s.retired + 1)
  {
    match a
    case Arc => ArcFrozen(s);
    case Pod(n) => PodFrozen(s, n); hide PodStep;
    case _ =>
  }

  /** Under any sequence of connects and disconnects, every call but the last has been retired,
      once; the Archimedes only leaves its poll loop when the last one has been too. */
  lemma RetiredOnce(s: Tx, acts: seq<Action>)
    requires Initial(s)
    ensures var r := Run(s, acts);
      && |r.calls| - 1 <= r.retired <= |r.calls|
      && (r.arc.Idle? ==> r.retired == |r.calls|)
      && Counters(r)
  {
    InitialInv(s);
    RunInv(s, acts);
  }
}
