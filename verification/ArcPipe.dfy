/** mod_pipe/pipe_packet.S as the straight-line code and loops it is. Each bus access goes through a
    bus object, which lets the podule, the link and the server run on for as long as they like
    before the next one; every access is the one the step machines of TxPipe and RxPipe make, so
    what is proved of their runs holds of this code. */
module ArcPipe {
  import opened Bits
  import opened PoduleRegs
  import opened Framing
  import opened ArcWaits
  import TxPrompt
  import RxPrompt
  import T = TxPipe
  import R = RxPipe

  // ---- Transmit

  lemma TxArcThen(s: T.Tx, acts: seq<T.Action>)
    requires T.Shape(s)
    ensures T.Step(s, T.Arc) == T.ArcStep(s)
    ensures T.Run(s, [T.Arc] + acts) == T.Run(T.ArcStep(s), acts)
  {
    assert ([T.Arc] + acts)[1..] == acts;
    hide T.ArcStep;
  }

  /** One access of the Archimedes and what the others do before its next one, as part of a run. */
  lemma TxAccess(start: T.Tx, trace: seq<T.Action>, s: T.Tx, acts: seq<T.Action>)
    requires T.Shape(start) && s == T.Run(start, trace) && T.Inv(s) && T.Others(acts)
    ensures T.Shape(s) && T.Shape(T.ArcStep(s))
    ensures var a, r := T.ArcStep(s), T.Run(T.ArcStep(s), acts);
      && r == T.Run(start, trace + ([T.Arc] + acts)) && T.Inv(r)
      && r.arc == a.arc && r.head == a.head && r.calls == a.calls && r.ringBits == a.ringBits
  {
    TxArcThen(s, acts);
    T.StepInv(s, T.Arc);
    hide T.Inv, T.Run, T.ArcStep, T.Step, T.Others;
    T.RunInv(T.ArcStep(s), acts);
    T.OthersKeep(T.ArcStep(s), acts);
    T.RunAppend(start, trace, [T.Arc] + acts);
  }

  lemma AfterOne(others: nat -> seq<T.Action>, s: T.Tx, n: nat)
    requires T.Shape(s)
    ensures TxAfter(others, s, n, 1) == T.Run(T.ArcStep(s), others(n))
  {
    assert TxAfter(others, s, n, 0) == s;
  }

  /** One access more. */
  lemma AfterMore(others: nat -> seq<T.Action>, s: T.Tx, n: nat, k: nat, j: nat)
    requires T.Shape(s)
    ensures TxAfter(others, s, n, 0) == s
    ensures TxAfter(others, s, n, k + j) == TxAfter(others, TxAfter(others, s, n, k), n + k, j)
  {
    TxAfterAdd(others, s, n, k, j);
  }

  class TxBus {
    /** What everyone else does after the n-th access. */
    const others: nat -> seq<T.Action>
    var accesses: nat
    var s: T.Tx
    ghost const start: T.Tx
    ghost var trace: seq<T.Action>

    ghost predicate Valid()
      reads this
    {
      && TxOthers(others)
      && T.Shape(start) && s == T.Run(start, trace) && T.Inv(s)
    }

    constructor (start: T.Tx, others: nat -> seq<T.Action>)
      requires T.Initial(start) && TxOthers(others)
      ensures Valid() && s == start && this.others == others && accesses == 0
    {
      this.others, accesses, s, trace := others, 0, start, [];
      this.start := start;
      T.InitialInv(start);
    }

    /** After an access of the Archimedes: only its own progress is certain. */
    twostate predicate Went(before: T.Tx)
      reads this
    {
      && Valid() && s.arc == before.arc && s.head == before.head && s.calls == before.calls
      && s.ringBits == before.ringBits
    }

    /** k accesses, each followed by what the others then do. */
    twostate predicate Made(k: nat)
      reads this
    {
      Valid() && T.Shape(old(s)) && accesses == old(accesses) + k && s == TxAfter(others, old(s), old(accesses), k)
    }

    /** One access of the Archimedes, then the others. */
    method Access()
      requires Valid()
      modifies this
      ensures T.Shape(old(s)) && Went(T.ArcStep(old(s))) && Made(1)
    {
      hide T.Inv, T.Run, T.ArcStep, T.Others, T.Shape;
      var acts := others(accesses);
      AfterOne(others, s, accesses);
      TxAccess(start, trace, s, acts);
      s := T.Run(T.ArcStep(s), acts);
      trace := trace + ([T.Arc] + acts);
      accesses := accesses + 1;
    }

    /** A `strb` to the TX buffer. */
    method StoreBuffer(i: nat, b: Byte)
      requires Valid() && i < |s.buf|
      requires T.ArcStep(s).buf == s.buf[i := b] && T.ArcStep(s).descrs == s.descrs
      modifies this
      ensures T.Shape(old(s)) && Went(T.ArcStep(old(s))) && Made(1)
    {
      Access();
    }

    /** A `strb` to one byte of a descriptor. */
    method StoreDescr(slot: nat, k: nat, b: Byte)
      requires Valid() && slot < |s.descrs| && k < 4
      requires T.ArcStep(s).descrs == s.descrs[slot := T.SetByte(s.descrs[slot], k, b)] && T.ArcStep(s).buf == s.buf
      modifies this
      ensures T.Shape(old(s)) && Went(T.ArcStep(old(s))) && Made(1)
    {
      Access();
    }

    /** The `ldrb` of a descriptor's last byte. */
    method LoadTop(slot: nat) returns (b: Byte)
      requires Valid() && s.arc.Polling? && slot == s.head
      modifies this
      ensures T.Shape(old(s)) && b == old(s.descrs[slot].b3) && Went(T.ArcStep(old(s))) && Made(1)
    {
      b := s.descrs[slot].b3;
      Access();
    }

    /** pipe_packet_tx is entered: no access yet. */
    method Enter(c: T.Call)
      requires Valid() && s.arc.Idle? && T.Legal(c)
      modifies this
      ensures Valid() && s == old(s).(arc := T.Filling(c, 0), calls := old(s.calls) + [c])
      ensures T.Shape(old(s)) && s == T.Begin(old(s), c) && accesses == old(accesses)
    {
      ghost var was := trace;
      T.StepInv(s, T.Submit(c));
      T.RunAppend(start, was, [T.Submit(c)]);
      OneStep(s, c);
      hide T.Inv, T.Run;
      s := T.Begin(s, c);
      trace := was + [T.Submit(c)];
    }

    lemma OneStep(before: T.Tx, c: T.Call)
      requires T.Shape(before)
      ensures T.Run(before, [T.Submit(c)]) == T.Begin(before, c)
    {
      assert [T.Submit(c)][1..] == [];
      hide T.Begin;
    }
  }

  /** The workspace word WS_TX_HEAD, and pipe_packet_tx. */
  class Sender {
    const bus: TxBus
    var wsTxHead: nat

    ghost predicate Valid()
      reads this, bus
    {
      bus.Valid() && wsTxHead == bus.s.head
    }

    constructor (bus: TxBus)
      requires bus.Valid() && bus.s.head == 0
      ensures Valid() && this.bus == bus
    {
      this.bus, wsTxHead := bus, 0;
    }

    /** The byte loop that fills the TX buffer. */
    method Fill(ghost c: T.Call, data: seq<Byte>)
      requires bus.Valid() && bus.s.arc == T.Filling(c, 0) && c.data == data && T.Legal(c)
      modifies bus
      ensures bus.Valid() && bus.s.arc == T.Publishing(c, ArcDescr(c.cid, |data|), 0)
      ensures bus.s.head == old(bus.s.head) && bus.s.calls == old(bus.s.calls) && bus.s.ringBits == old(bus.s.ringBits)
      ensures bus.Made(|data|)
    {
      hide T.Inv, T.Run, T.Others, ArcDescr, TxAfter;
      AfterMore(bus.others, bus.s, bus.accesses, 0, 0);
      var r0, r3 := 0, |data|;
      while true
        invariant bus.Valid() && bus.s.arc == T.Filling(c, r0) && r0 + r3 == |data| && r3 >= 1
        invariant bus.s.head == old(bus.s.head) && bus.s.calls == old(bus.s.calls)
          && bus.s.ringBits == old(bus.s.ringBits)
        invariant bus.Made(r0)
        decreases r3
      {
        FillStep(bus.s);
        AfterMore(bus.others, old(bus.s), old(bus.accesses), r0, 1);
        bus.StoreBuffer(r0, data[r0]);
        r0, r3 := r0 + 1, r3 - 1;
        if r3 == 0 { break; }
      }
    }

    /** The descriptor's four bytes, least significant first; each `mov r9, r9, lsr #8` drops one. */
    method Publish(ghost c: T.Call, word: nat)
      requires Valid() && bus.s.arc == T.Publishing(c, word, 0)
      modifies bus
      ensures Valid() && bus.s.arc == T.Polling(c)
      ensures bus.s.head == old(bus.s.head) && bus.s.calls == old(bus.s.calls) && bus.s.ringBits == old(bus.s.ringBits)
      ensures bus.Made(4)
    {
      hide T.Inv, T.Run, T.Others, T.ArcStep, T.SetByte, TxAfter;
      var r9 := word;
      PublishStep(bus.s);
      bus.StoreDescr(wsTxHead, 0, r9 % 0x100);
      r9 := r9 / 0x100;
      PublishStep(bus.s);
      AfterMore(bus.others, old(bus.s), old(bus.accesses), 1, 1);
      bus.StoreDescr(wsTxHead, 1, r9 % 0x100);
      r9 := r9 / 0x100;
      PublishStep(bus.s);
      AfterMore(bus.others, old(bus.s), old(bus.accesses), 2, 1);
      bus.StoreDescr(wsTxHead, 2, r9 % 0x100);
      r9 := r9 / 0x100;
      PublishStep(bus.s);
      AfterMore(bus.others, old(bus.s), old(bus.accesses), 3, 1);
      bus.StoreDescr(wsTxHead, 3, r9 % 0x100);
    }

    /** The poll for completion: as many loads of the descriptor's last byte as it takes to find bit 7
        clear, or the number of the timeout. It succeeds exactly if the others' steps before the last of
        these retire the packet. */
    method AwaitDone(ghost c: T.Call) returns (ok: bool)
      requires Valid() && bus.s.arc == T.Polling(c)
      modifies bus
      ensures bus.Valid() && bus.s.calls == old(bus.s.calls) && bus.s.ringBits == old(bus.s.ringBits)
      ensures if ok then bus.s.arc.Idle? && bus.s.head == NextSlot(wsTxHead, bus.s.ringBits)
              else bus.s.arc == T.Polling(c) && bus.s.head == wsTxHead
      ensures old(bus.accesses) < bus.accesses <= old(bus.accesses) + 0x10_0000
      ensures var n, k := old(bus.accesses), bus.accesses - old(bus.accesses);
        && bus.Made(k) && (!ok ==> k == 0x10_0000)
        && (forall i :: 0 <= i < k - 1 ==> TxBusy(TxAfter(bus.others, old(bus.s), n, i)))
        && (ok <==> !TxBusy(TxAfter(bus.others, old(bus.s), n, k - 1)))
        && (ok <==> T.Run(old(bus.s), Gap(bus.others, n, 0x10_0000 - 1)).retired == |old(bus.s).calls|)
    {
      hide T.Inv, T.Run, T.Others, T.ArcStep, TopBitSet, NextSlot, TxAfter, Gap, TxOthers, T.Shape, TxBusy;
      var r5 := TIMEOUT;
      ghost var s, n, k := bus.s, bus.accesses, 0;
      AfterMore(bus.others, s, n, 0, 0);
      while true
        invariant Valid() && bus.s.arc == T.Polling(c) && r5 >= 1 && r5 + k == TIMEOUT
        invariant bus.s.calls == old(bus.s.calls) && bus.s.ringBits == old(bus.s.ringBits)
        invariant bus.Made(k) && forall i :: 0 <= i < k ==> TxBusy(TxAfter(bus.others, s, n, i))
        decreases r5
      {
        PollStep(bus.s);
        HeadByte(bus.s);
        AfterMore(bus.others, s, n, k, 1);
        DoneInTime(bus.others, s, n, k, TIMEOUT - 1);
        var r4 := bus.LoadTop(wsTxHead);
        if !TopBitSet(r4) { return true; }
        r5 := r5 - 1;
        if r5 == 0 { return false; }
        k := k + 1;
      }
    }

    /** pipe_packet_tx. It returns normally only when the podule has retired its packet; on a timeout
        the descriptor is left published, after a fixed number of loads. It returns normally exactly if
        the podule retires the packet between the descriptor's last store and the last of these, which
        a prompt podule always does. Either way, all it did was a run of the step machine. */
    method PipePacketTx(data: seq<Byte>, cid: Word32) returns (ok: bool)
      requires Valid() && bus.s.arc.Idle? && T.Legal(T.Call(cid, data))
      modifies this, bus
      ensures bus.Valid() && bus.s.calls == old(bus.s.calls) + [T.Call(cid, data)]
      ensures ok ==> Valid() && bus.s.arc.Idle? && bus.s.retired == |bus.s.calls|
      ensures !ok ==> bus.s.arc == T.Polling(T.Call(cid, data)) && bus.s.retired <= |bus.s.calls|
      ensures !ok ==> bus.accesses == old(bus.accesses) + |data| + 4 + 0x10_0000 && wsTxHead == old(wsTxHead)
      ensures T.Shape(old(bus.s))
      ensures var n := old(bus.accesses) + |data| + 4;
        var t := TxAfter(bus.others, T.Begin(old(bus.s), T.Call(cid, data)), old(bus.accesses), |data| + 4);
        ok <==> T.Run(t, Gap(bus.others, n, 0x10_0000 - 1)).retired == |t.calls|
      ensures TxPrompt.Prompt(bus.others) ==> ok
    {
      hide T.Run, T.Others, NextSlot, T.Inv, TxAfter, Gap, TxOthers, TxBusy, T.Shape, T.Begin;
      var c := T.Call(cid, data);
      bus.Enter(c);
      ghost var b, m := bus.s, bus.accesses;
      Fill(c, data);
      var r1 := Lsl(|data| - 1, 23);
      var r9 := Or(0, Lsr(r1, 23 - DESCR_SIZE_SHIFT));
      var r2 := Lsl(cid, 25);
      r9 := Or(r9, Lsr(r2, 25 - DESCR_CID_SHIFT));
      r9 := Or(r9, DESCR_READY);
      AfterMore(bus.others, b, m, |data|, 4);
      Publish(c, r9);
      if TxPrompt.Prompt(bus.others) { TxPrompt.PromptRetires(bus.others, bus.s, bus.accesses); }
      ok := AwaitDone(c);
      Retirement(bus.s);
      if ok {
        wsTxHead := NextSlot(wsTxHead, bus.s.ringBits);
      }
    }
  }

  lemma HeadByte(s: T.Tx)
    requires T.Shape(s)
    ensures s.head < |s.descrs| && (TxBusy(s) <==> TopBitSet(s.descrs[s.head].b3))
  {}

  lemma Retirement(s: T.Tx)
    requires T.Inv(s)
    ensures (s.arc.Idle? ==> s.retired == |s.calls|) && (s.arc.Polling? ==> s.retired <= |s.calls|)
  {
    hide T.OnlyHeadReady, T.Published, T.ArcProgress, T.PodProgress;
  }

  lemma FillStep(s: T.Tx)
    requires T.Shape(s) && s.arc.Filling?
    ensures var r := T.ArcStep(s);
      && s.arc.i < |s.buf|
      && r.buf == s.buf[s.arc.i := s.arc.call.data[s.arc.i]] && r.descrs == s.descrs && r.head == s.head
      && r.ringBits == s.ringBits && r.calls == s.calls
      && r.arc == if s.arc.i + 1 < |s.arc.call.data| then T.Filling(s.arc.call, s.arc.i + 1)
                  else T.Publishing(s.arc.call, ArcDescr(s.arc.call.cid, |s.arc.call.data|), 0)
  {
    hide ArcDescr;
  }

  lemma PublishStep(s: T.Tx)
    requires T.Shape(s) && s.arc.Publishing?
    ensures var r := T.ArcStep(s);
      && s.head < |s.descrs|
      && r.descrs == s.descrs[s.head := T.SetByte(s.descrs[s.head], s.arc.k, s.arc.r9 % 0x100)] && r.buf == s.buf
      && r.head == s.head && r.ringBits == s.ringBits && r.calls == s.calls
      && r.arc == if s.arc.k < 3 then T.Publishing(s.arc.call, s.arc.r9 / 0x100, s.arc.k + 1) else T.Polling(s.arc.call)
  {}

  lemma PollStep(s: T.Tx)
    requires T.Shape(s) && s.arc.Polling?
    ensures var r := T.ArcStep(s);
      if TopBitSet(s.descrs[s.head].b3) then r == s
      else r == s.(arc := T.Idle, head := NextSlot(s.head, s.ringBits))
  {}

  // ---- Receive

  lemma RxAfterOne(others: nat -> seq<R.Action>, s: R.Rx, n: nat)
    requires R.Shape(s)
    ensures RxAfter(others, s, n, 1) == R.Run(R.Step(s, R.Arc), others(n))
  {
    assert RxAfter(others, s, n, 0) == s;
  }

  lemma RxAfterMore(others: nat -> seq<R.Action>, s: R.Rx, n: nat, k: nat, j: nat)
    requires R.Shape(s)
    ensures RxAfter(others, s, n, 0) == s
    ensures RxAfter(others, s, n, k + j) == RxAfter(others, RxAfter(others, s, n, k), n + k, j)
  {
    RxAfterAdd(others, s, n, k, j);
  }

  class RxBus {
    const others: nat -> seq<R.Action>
    var accesses: nat
    var s: R.Rx
    ghost const start: R.Rx
    ghost var trace: seq<R.Action>

    ghost predicate Valid()
      reads this
    {
      && RxOthers(others)
      && R.Shape(start) && s == R.Run(start, trace) && R.Inv(s)
    }

    constructor (start: R.Rx, others: nat -> seq<R.Action>)
      requires R.Initial(start) && RxOthers(others)
      ensures Valid() && s == start && this.others == others && accesses == 0
    {
      this.others, accesses, s, trace := others, 0, start, [];
      this.start := start;
      R.InitialInv(start);
    }

    twostate predicate Went(before: R.Rx)
      reads this
    {
      && Valid() && s.arc == before.arc && s.tail == before.tail && s.received == before.received
      && s.ringBits == before.ringBits
    }

    /** k accesses, each followed by what the others then do. */
    twostate predicate Made(k: nat)
      reads this
    {
      Valid() && R.Shape(old(s)) && accesses == old(accesses) + k && s == RxAfter(others, old(s), old(accesses), k)
    }

    /** One action of the Archimedes, then the others. */
    method Act(a: R.Action)
      requires Valid() && (a.Arc? || a.Receive?)
      modifies this
      ensures R.Shape(old(s)) && Went(R.Step(old(s), a))
      ensures accesses == old(accesses) + 1 && s == R.Run(R.Step(old(s), a), others(old(accesses)))
      ensures a.Arc? ==> Made(1)
    {
      RxAfterOne(others, s, accesses);
      ghost var before, was := s, trace;
      R.StepInv(s, a);
      var acts := others(accesses);
      hide R.Inv, R.Run, R.Step, R.Others;
      var mid := R.Step(s, a);
      R.RunInv(mid, acts);
      R.OthersKeep(mid, acts);
      R.RunAppend(start, was, [a] + acts);
      ActThen(before, a, acts);
      s := R.Run(mid, acts);
      trace := was + ([a] + acts);
      accesses := accesses + 1;
    }

    lemma ActThen(before: R.Rx, a: R.Action, acts: seq<R.Action>)
      requires R.Shape(before)
      ensures R.Run(before, [a] + acts) == R.Run(R.Step(before, a), acts)
    {
      assert ([a] + acts)[1..] == acts;
      hide R.Step;
    }

    /** The `ldrb` of a descriptor byte; byte 3 carries READY. */
    method LoadDescr(slot: nat, k: nat) returns (b: Byte)
      requires Valid() && slot == s.tail && slot < |s.descrs| && k < 4
      requires if k == 3 then s.arc.Polling? else s.arc.Getting? && s.arc.k == k
      modifies this
      ensures R.Shape(old(s)) && b == old(ByteOf(s.descrs[slot], k)) && Went(R.ArcStep(old(s))) && Made(1)
    {
      b := ByteOf(s.descrs[slot], k);
      Act(R.Arc);
    }

    /** The `ldrb` of an RX buffer byte at a bus offset. */
    method LoadBuffer(address: nat) returns (b: Byte)
      requires Valid() && s.arc.Fetching? && address == s.arc.offset + 4 * |s.arc.data|
      modifies this
      ensures R.Shape(old(s)) && b == old(R.BusByte(s.buf, address)) && Went(R.ArcStep(old(s))) && Made(1)
    {
      b := R.BusByte(s.buf, address);
      Act(R.Arc);
    }

    /** The `strb` of zero over a descriptor's last byte. */
    method ClearTop(slot: nat)
      requires Valid() && s.arc.Consuming? && slot == s.tail && slot < |s.descrs|
      modifies this
      ensures R.Shape(old(s)) && Went(R.ArcStep(old(s))) && Made(1)
    {
      Act(R.Arc);
    }
  }

  function ByteOf(d: Descr, k: nat): Byte
    requires k < 4
  {
    match k
    case 0 => d.b0
    case 1 => d.b1
    case 2 => d.b2
    case 3 => d.b3
  }

  lemma AwaitStep(s: R.Rx)
    requires R.Shape(s) && s.arc.Polling?
    ensures var r, b := R.ArcStep(s), s.descrs[s.tail].b3;
      && r.tail == s.tail && r.received == s.received && r.ringBits == s.ringBits
      && r.arc == if TopBitSet(b) then R.Getting(b, 0, 0) else R.Polling
  {}

  /** The word put together from the first three bytes and the one polled. */
  lemma GetStep(s: R.Rx)
    requires R.Shape(s) && s.arc.Getting?
    ensures var r, d, r4, r6 := R.ArcStep(s), s.descrs[s.tail], s.arc.r4, s.arc.r6;
      && r.tail == s.tail && r.received == s.received && r.ringBits == s.ringBits
      && (s.arc.k == 0 ==> r.arc == R.Getting(r6, d.b0, 1))
      && (s.arc.k == 1 ==> r.arc == R.Getting(r6, Or(r4, Lsl(d.b1, BYTE_BITS)), 2))
      && (s.arc.k == 2 ==>
            var w := Or(Or(r4, Lsl(d.b2, 2 * BYTE_BITS)), Lsl(r6, 3 * BYTE_BITS));
            r.arc == R.Fetching(ArcLen(w), ArcCid(w), ArcOffset(w), []))
  {
    hide Or, Lsl, ArcLen, ArcCid, ArcOffset;
  }

  lemma FetchStep(s: R.Rx)
    requires R.Shape(s) && s.arc.Fetching?
    ensures var r := R.ArcStep(s);
      var more := s.arc.data + [R.BusByte(s.buf, s.arc.offset + 4 * |s.arc.data|)];
      && r.tail == s.tail && r.received == s.received && r.ringBits == s.ringBits
      && r.arc == if |more| < s.arc.len then R.Fetching(s.arc.len, s.arc.cid, s.arc.offset, more)
                  else R.Consuming(s.arc.cid, more)
  {}

  lemma ConsumeStep(s: R.Rx)
    requires R.Shape(s) && s.arc.Consuming?
    ensures var r := R.ArcStep(s);
      && r.arc.Idle? && r.tail == NextSlot(s.tail, s.ringBits) && r.ringBits == s.ringBits
      && r.received == s.received + [Packet(s.arc.cid % 0x100, s.arc.data)]
  {
    hide NextSlot;
  }

  /** The length decoded is that of the packet in flight. */
  lemma FetchBound(s: R.Rx)
    requires R.Inv(s) && s.arc.Fetching?
    ensures 1 <= s.arc.len <= BUFFER_SIZE && |s.arc.data| < s.arc.len && s.arc.cid < 0x80
  {
    hide R.Conserved, R.Counters, R.PodProgress, R.OnlyLastReady, R.Delivered, StoreWord, R.PublishedWord;
  }

  /** The workspace word WS_RX_TAIL, and pipe_packet_rx. */
  class Receiver {
    const bus: RxBus
    var wsRxTail: nat

    ghost predicate Valid()
      reads this, bus
    {
      bus.Valid() && wsRxTail == bus.s.tail
    }

    constructor (bus: RxBus)
      requires bus.Valid() && bus.s.tail == 0
      ensures Valid() && this.bus == bus
    {
      this.bus, wsRxTail := bus, 0;
    }

    /** The poll for a READY descriptor; r6 is the byte that carries the bit. It makes as many loads as it
        takes to find bit 7 set, or the number of the timeout, and succeeds exactly if the others' steps
        before the last of these bring a packet into flight. */
    method AwaitReady() returns (ok: bool, r6: Byte)
      requires Valid() && bus.s.arc.Polling?
      modifies bus
      ensures Valid() && bus.s.received == old(bus.s.received) && bus.s.ringBits == old(bus.s.ringBits)
      ensures bus.s.arc == if ok then R.Getting(r6, 0, 0) else R.Polling
      ensures old(bus.accesses) < bus.accesses <= old(bus.accesses) + 0x10_0000
      ensures var n, k := old(bus.accesses), bus.accesses - old(bus.accesses);
        && bus.Made(k) && (!ok ==> k == 0x10_0000)
        && (forall i :: 0 <= i < k - 1 ==> !RxReady(RxAfter(bus.others, old(bus.s), n, i)))
        && (ok <==> RxReady(RxAfter(bus.others, old(bus.s), n, k - 1)))
        && (ok <==> R.InFlight(R.Run(old(bus.s), Gap(bus.others, n, 0x10_0000 - 1))))
    {
      hide R.Inv, R.Run, R.Others, R.ArcStep, TopBitSet, RxAfter, Gap, RxOthers, R.Shape, RxReady, R.InFlight;
      var r5 := TIMEOUT;
      ghost var s, n, k := bus.s, bus.accesses, 0;
      RxAfterMore(bus.others, s, n, 0, 0);
      while true
        invariant Valid() && bus.s.arc.Polling? && r5 >= 1 && r5 + k == TIMEOUT
        invariant bus.s.received == old(bus.s.received) && bus.s.ringBits == old(bus.s.ringBits)
        invariant bus.Made(k) && forall i :: 0 <= i < k ==> !RxReady(RxAfter(bus.others, s, n, i))
        decreases r5
      {
        AwaitStep(bus.s);
        TailByte(bus.s);
        RxAfterMore(bus.others, s, n, k, 1);
        ReadyInTime(bus.others, s, n, k, TIMEOUT - 1);
        r6 := bus.LoadDescr(wsRxTail, 3);
        if TopBitSet(r6) { return true, r6; }
        r5 := r5 - 1;
        if r5 == 0 { return false, r6; }
        k := k + 1;
      }
    }

    /** The rest of the descriptor, and its fields. */
    method ReadDescr(r6: Byte) returns (len: nat, cid: nat, offset: nat)
      requires Valid() && bus.s.arc == R.Getting(r6, 0, 0)
      modifies bus
      ensures Valid() && bus.s.received == old(bus.s.received) && bus.s.ringBits == old(bus.s.ringBits)
      ensures bus.s.arc == R.Fetching(len, cid, offset, []) && bus.Made(3)
    {
      hide R.Inv, R.Run, R.Others, R.ArcStep, Or, Lsl, ArcLen, ArcCid, ArcOffset, RxAfter;
      GetStep(bus.s);
      var r4: nat := bus.LoadDescr(wsRxTail, 0);
      GetStep(bus.s);
      RxAfterMore(bus.others, old(bus.s), old(bus.accesses), 1, 1);
      var r5 := bus.LoadDescr(wsRxTail, 1);
      r4 := Or(r4, Lsl(r5, BYTE_BITS));
      GetStep(bus.s);
      RxAfterMore(bus.others, old(bus.s), old(bus.accesses), 2, 1);
      r5 := bus.LoadDescr(wsRxTail, 2);
      r4 := Or(r4, Lsl(r5, 2 * BYTE_BITS));
      r4 := Or(r4, Lsl(r6, 3 * BYTE_BITS));
      len, cid, offset := ArcLen(r4), ArcCid(r4), ArcOffset(r4);
    }

    /** The byte loop that empties the RX buffer. */
    method CopyOut(dst: array<Byte>, len: nat, cid: nat, offset: nat)
      requires Valid() && bus.s.arc == R.Fetching(len, cid, offset, []) && dst.Length >= len >= 1
      modifies bus, dst
      ensures Valid() && bus.s.arc == R.Consuming(cid, dst[..len])
      ensures bus.s.received == old(bus.s.received) && bus.s.ringBits == old(bus.s.ringBits) && bus.Made(len)
    {
      hide R.Inv, R.Run, R.Others, R.ArcStep, R.BusByte, RxAfter;
      RxAfterMore(bus.others, bus.s, bus.accesses, 0, 0);
      var r9, i, r4 := offset, 0, len;
      while true
        invariant Valid() && i + r4 == len && r4 >= 1 && r9 == offset + 4 * i
        invariant bus.s.arc == R.Fetching(len, cid, offset, dst[..i])
        invariant bus.s.received == old(bus.s.received) && bus.s.ringBits == old(bus.s.ringBits) && bus.Made(i)
        decreases r4
      {
        FetchStep(bus.s);
        RxAfterMore(bus.others, old(bus.s), old(bus.accesses), i, 1);
        var r5 := bus.LoadBuffer(r9);
        dst[i] := r5;
        assert dst[..i + 1] == dst[..i] + [r5];
        r9, i, r4 := r9 + 4, i + 1, r4 - 1;
        if r4 == 0 { break; }
      }
    }

    /** pipe_packet_rx into a buffer of the largest packet size: unless it times out it returns the
        next packet of those accepted by the podule. It times out, after a fixed number of loads,
        exactly if none is in flight before the last of them; with one packet given, and a link and a
        podule that keep going, it never does. All it did was a run of the step machine. */
    method PipePacketRx(dst: array<Byte>) returns (ok: bool, len: nat, cid: Byte)
      requires Valid() && bus.s.arc.Idle? && dst.Length == BUFFER_SIZE
      modifies this, bus, dst
      ensures bus.Valid() && (!ok ==> bus.s.received == old(bus.s.received))
      ensures ok ==> Valid() && bus.s.arc.Idle? && 1 <= len <= BUFFER_SIZE
      ensures ok ==> bus.s.received == old(bus.s.received) + [Packet(cid, dst[..len])]
      ensures ok ==> bus.s.received <= bus.s.given
      ensures ok ==> bus.accesses <= old(bus.accesses) + 1 + 0x10_0000 + 3 + len + 1
      ensures !ok ==> bus.accesses == old(bus.accesses) + 1 + 0x10_0000 && wsRxTail == old(wsRxTail)
      ensures R.Shape(old(bus.s))
      ensures ok <==>
        R.InFlight(R.Run(R.Step(old(bus.s), R.Receive), Gap(bus.others, old(bus.accesses), 0x10_0000)))
      ensures RxPrompt.Prompt(bus.others) && old(RxPrompt.OneGiven(bus.s)) ==> ok
    {
      hide R.Run, R.Others, R.ArcStep, NextSlot, R.Inv, RxAfter, Gap, RxOthers, R.Shape, R.Step, R.InFlight,
        RxPrompt.OneGiven, RxReady;
      var r6;
      ghost var s, n := bus.s, bus.accesses;
      Entered(s);
      if RxPrompt.Prompt(bus.others) && RxPrompt.OneGiven(s) {
        RxPrompt.PromptBrings(bus.others, R.Step(s, R.Receive), n, TIMEOUT);
      }
      FirstGap(bus.others, R.Step(s, R.Receive), n, TIMEOUT);
      bus.Act(R.Receive);
      ok, r6 := AwaitReady();
      len, cid := 0, 0;
      if ok {
        var r2, offset;
        len, r2, offset := ReadDescr(r6);
        FetchBound(bus.s);
        CopyOut(dst, len, r2, offset);
        cid := r2;
        ConsumeStep(bus.s);
        TailByte(bus.s);
        bus.ClearTop(wsRxTail);
        wsRxTail := NextSlot(wsRxTail, bus.s.ringBits);
        ReceivedGiven(bus.s);
      }
    }
  }

  lemma TailByte(s: R.Rx)
    requires R.Shape(s)
    ensures s.tail < |s.descrs| && (RxReady(s) <==> TopBitSet(s.descrs[s.tail].b3))
  {}

  lemma ReceivedGiven(s: R.Rx)
    requires R.Inv(s)
    ensures s.received <= s.given
  {
    hide R.Conserved, R.Counters, R.Flight, R.PodProgress;
  }

  /** pipe_packet_rx is entered: no access yet. */
  lemma Entered(s: R.Rx)
    requires R.Inv(s) && s.arc.Idle?
    ensures R.Shape(s) && R.Inv(R.Step(s, R.Receive))
    ensures R.Step(s, R.Receive) == s.(arc := R.Polling)
    ensures RxPrompt.OneGiven(s) ==> RxPrompt.OneGiven(R.Step(s, R.Receive))
  {
    R.StepInv(s, R.Receive);
    if RxPrompt.OneGiven(s) { R.SoloStep(s, R.Receive); }
    hide R.Inv, R.Solo;
  }

  lemma FirstGap(others: nat -> seq<R.Action>, s: R.Rx, n: nat, k: nat)
    requires R.Shape(s) && k >= 1
    ensures R.Run(s, Gap(others, n, k)) == R.Run(R.Run(s, others(n)), Gap(others, n + 1, k - 1))
  {
    hide Gap, R.Run, R.Shape;
    GapSplits(others, n, 1, k - 1);
    GapOne(others, n);
    R.RunAppend(s, others(n), Gap(others, n + 1, k - 1));
  }
}
