/** pipe_packet.c: the podule's static state and its routines over the shared register space. Each
    routine is proved to do, when it runs without interruption, what the step machines of TxPipe
    and RxPipe do in a run of the podule's steps. */
module Podule {
  import opened Bits
  import opened PoduleRegs
  import opened PoduleSpace
  import opened Framing
  import opened Memory
  import opened Shuffle
  import T = TxPipe
  import R = RxPipe
  import TP = TxPoll
  import RP = RxPoll

  const BUF_SIZE: nat := BUFFER_SIZE + HEADER_SIZE

  /** A transmit machine with the podule's half replaced, at rest. */
  function TxWith(rest: T.Tx, m: Shared, ongoing: bool, total: nat, pos: nat, txBuf: seq<Byte>,
                  connected: bool, wire: seq<Byte>, retired: nat): T.Tx
  {
    rest.(ringBits := RING_BITS, descrs := m.descrs, buf := m.buf, tail := m.index, pod := T.Resting,
          ongoing := ongoing, total := total, pos := pos, txBuf := txBuf,
          connected := connected, wire := wire, retired := retired)
  }

  function RxWith(rest: R.Rx, form: Form, m: Shared, rxBuf: seq<Byte>, rxPos: nat, last: nat, pending: bool,
                  fifo: seq<Byte>, accepted: seq<Packet>): R.Rx
  {
    rest.(form := form, ringBits := RING_BITS, descrs := m.descrs, buf := m.buf, head := m.index, pod := R.Resting,
          rxBuf := rxBuf, rxPos := rxPos, last := last, pending := pending, fifo := fifo, accepted := accepted)
  }

  /** What the Archimedes holds privately fits a ring of this size. */
  predicate ArcTxOk(rest: T.Tx) { rest.ringBits == RING_BITS && T.Shape(rest) }

  predicate ArcRxOk(rest: R.Rx) { rest.ringBits == RING_BITS && R.Shape(rest) }

  lemma TxWithShape(rest: T.Tx, m: Shared, ongoing: bool, total: nat, pos: nat, txBuf: seq<Byte>,
                    connected: bool, wire: seq<Byte>, retired: nat)
    requires ArcTxOk(rest) && |m.descrs| == NUM_DESCRS && |m.buf| == BUFFER_SIZE && m.index < NUM_DESCRS
    requires |txBuf| == BUF_SIZE && (ongoing ==> pos <= total <= BUF_SIZE)
    ensures T.Shape(TxWith(rest, m, ongoing, total, pos, txBuf, connected, wire, retired))
  {
    assert Pow2(RING_BITS) == NUM_DESCRS;
  }

  /** The two outcomes of pipe_tx_start. */
  lemma StartCases(s: T.Tx, accept: nat)
    requires T.Shape(s)
    ensures var w := LoadWord(s.descrs[s.tail]);
      var len, cid, addr := SizeField(w), CidField(w) % 0x100, AddrField(w);
      if addr + len >= BUFFER_SIZE then TP.StartWhole(s, accept) == TP.Retire(s)
      else TP.StartWhole(s, accept) == Sent(s, Header(cid, len), len, addr, accept)
  {
    hide LoadWord, SizeField, CidField, AddrField, Header, CopyRest, NextSlot, StoreWord, ClearReady;
  }

  /** The packet put together and handed to the link, of which the link takes a part. */
  function Sent(s: T.Tx, header: seq<Byte>, len: nat, addr: nat, accept: nat): T.Tx
    requires T.Shape(s) && |header| == HEADER_SIZE && addr + len < BUFFER_SIZE
  {
    var b := CopyRest(header + s.txBuf[HEADER_SIZE..], s.buf, HEADER_SIZE, addr, 0, len);
    var n := Min(accept, len + HEADER_SIZE);
    var t := s.(txBuf := b, total := len + HEADER_SIZE, wire := s.wire + b[..n]);
    if n == len + HEADER_SIZE then TP.Retire(t.(ongoing := false))
    else t.(ongoing := true, pos := n, pod := T.Resting)
  }

  /** n more bytes of the transfer in progress taken by the link. */
  function Written(s: T.Tx, n: nat): T.Tx
    requires s.pos + n <= |s.txBuf|
  {
    s.(wire := s.wire + s.txBuf[s.pos..s.pos + n], pos := s.pos + n)
  }

  lemma ContinueCases(s: T.Tx, accept: nat)
    requires T.Shape(s) && s.ongoing
    ensures var n := Min(accept, s.total - s.pos);
      TP.RetireIfDone(T.Continue(s, accept)) ==
        if s.pos + n >= s.total then TP.Retire(Written(s, n).(ongoing := false)) else Written(s, n).(pod := T.Resting)
  {
    hide LoadWord, NextSlot, StoreWord, ClearReady;
  }

  lemma PollTxIs(s: T.Tx, accept: nat)
    requires T.Shape(s) && s.pod.Resting?
    ensures TP.PollTx(s, accept) ==
      if s.ongoing then (if s.connected then TP.RetireIfDone(T.Continue(s, accept)) else s.(ongoing := false))
      else if !IsReady(LoadWord(s.descrs[s.tail])) then s
      else if s.connected then TP.StartWhole(s, accept)
      else TP.Retire(s)
  {
    var t := s.(pod := T.Sampled(s.connected));
    hide LoadWord, IsReady, NextSlot, StoreWord, ClearReady;
    if s.ongoing {
      ContinueCases(s, accept);
      ContinueCases(t, accept);
      hide T.Continue, TP.RetireIfDone;
    } else {
      StartCases(s, accept);
      StartCases(t, accept);
      hide TP.StartWhole, Header, CopyRest, SizeField, CidField, AddrField;
    }
  }

  lemma RxWithShape(rest: R.Rx, form: Form, m: Shared, rxBuf: seq<Byte>, rxPos: nat, last: nat, pending: bool,
                    fifo: seq<Byte>, accepted: seq<Packet>)
    requires ArcRxOk(rest) && |m.descrs| == NUM_DESCRS && |m.buf| == BUFFER_SIZE && m.index < NUM_DESCRS
    requires |rxBuf| == BUF_SIZE && rxPos <= BUF_SIZE && last < NUM_DESCRS
    ensures R.Shape(RxWith(rest, form, m, rxBuf, rxPos, last, pending, fifo, accepted))
  {
    hide FrameLen;
    assert Pow2(RING_BITS) == NUM_DESCRS;
  }

  /** pipe_rx_packet accepting a packet of a size the buffer holds. */
  function Delivered(s: R.Rx): (r: R.Rx)
    requires R.Shape(s) && R.FrontComplete(s) && FrameLen(s.rxBuf) <= BUF_SIZE
    ensures R.Shape(r.(pod := R.Finishing))
  {
    var len := FrameLen(s.rxBuf) - HEADER;
    s.(buf := PutBlock(s.buf, 0, s.rxBuf[HEADER..HEADER + len]),
       descrs := s.descrs[s.head := StoreWord(R.PublishedWord(s.rxBuf[0], len))],
       last := s.head, accepted := s.accepted + [R.FrontPacket(s)], head := NextSlot(s.head, s.ringBits))
  }

  /** pipe_rx once its read is done, s being the state at rest with the bytes read in place. */
  function Examined(s: R.Rx): R.Rx
    requires R.Shape(s) && s.pod.Resting?
  {
    if !R.FrontComplete(s) then s
    else if IsReady(LoadWord(s.descrs[s.last])) then s.(pending := true)
    else
      var t := if FrameLen(s.rxBuf) <= BUF_SIZE then Delivered(s) else s;
      R.Finish(t.(pod := R.Finishing))
  }

  lemma DeliverSteps(c: R.Rx)
    requires R.Shape(c) && c.pod.Checking? && R.FrontComplete(c) && FrameLen(c.rxBuf) <= BUF_SIZE
    requires !IsReady(LoadWord(c.descrs[c.last]))
    ensures var u := R.Check(c);
      var t := Delivered(c.(pod := R.Resting)).(pod := R.Finishing);
      && (u.pod.Storing? ==> u.pod.i == 0 && R.Advance(R.Publish(RP.Stored(u))) == t)
      && (u.pod.Publishing? ==> R.Advance(R.Publish(u)) == t)
      && (u.pod.Storing? || u.pod.Publishing?)
  {
    hide LoadWord, IsReady, StoreWord, R.PublishedWord, NextSlot, FrameLen, CopyRest, PutBlock;
    CopiedIn(c.buf, c.rxBuf, FrameLen(c.rxBuf) - HEADER);
  }

  lemma CopiedIn(buf: seq<Byte>, src: seq<Byte>, len: nat)
    requires len <= |buf| && HEADER + len <= |src|
    ensures PutBlock(buf, 0, src[HEADER..HEADER + len]) == CopyRest(buf, src, 0, HEADER, 0, len)
    ensures CopyRest(buf, src, 0, HEADER, 0, 0) == buf
  {}

  lemma ExaminedIs(c: R.Rx)
    requires R.Shape(c) && c.pod.Checking?
    ensures var u := R.Check(c);
      Examined(c.(pod := R.Resting)) ==
        if u.pod.Storing? then RP.Accept(RP.Stored(u))
        else if u.pod.Publishing? then RP.Accept(u)
        else if u.pod.Finishing? then R.Finish(u)
        else u
  {
    if R.FrontComplete(c) && FrameLen(c.rxBuf) <= BUF_SIZE && !IsReady(LoadWord(c.descrs[c.last])) {
      DeliverSteps(c);
      hide LoadWord, IsReady, FrameLen, R.Finish, Delivered, R.Publish, RP.Stored, R.Advance, R.Check;
    } else {
      hide LoadWord, IsReady, FrameLen, R.Finish, Delivered, R.Publish, RP.Stored;
    }
  }

  /** What the read of pipe_rx leaves. */
  function ReadIn(s: R.Rx, n: nat): R.Rx
    requires R.Shape(s)
  {
    if s.pending then s
    else
      var m := Min(Min(n, |s.fifo|), |s.rxBuf| - s.rxPos);
      s.(rxBuf := s.rxBuf[..s.rxPos] + s.fifo[..m] + s.rxBuf[s.rxPos + m..], rxPos := s.rxPos + m, fifo := s.fifo[m..])
  }

  lemma ReadInShape(s: R.Rx, n: nat)
    requires R.Shape(s) && s.pod.Resting?
    ensures R.Shape(ReadIn(s, n)) && ReadIn(s, n).pod.Resting?
  {
    hide FrameLen;
  }

  lemma PollReads(s: R.Rx, n: nat)
    requires R.Shape(s) && s.pod.Resting? && (s.pending || (n > 0 && s.fifo != []))
    ensures var c := R.Poll(s, n);
      c.pod.Checking? && c.(pod := R.Resting) == ReadIn(s, n)
  {
    hide R.Shape;
  }

  lemma PollIs(s: R.Rx, n: nat)
    requires R.Shape(s) && s.pod.Resting?
    ensures R.Shape(ReadIn(s, n)) && ReadIn(s, n).pod.Resting?
    ensures RP.PollRx(s, n) == if s.pending || (n > 0 && s.fifo != []) then Examined(ReadIn(s, n)) else s
  {
    ReadInShape(s, n);
    if s.pending || (n > 0 && s.fifo != []) {
      PollReads(s, n);
      ExaminedIs(R.Poll(s, n));
      hide R.Poll, R.Check, Examined, RP.Accept, R.Finish, RP.Stored, FrameLen, R.Shape, ReadIn;
    } else {
      PollSkips(s, n);
      hide RP.PollRx, R.Shape, Examined;
    }
  }

  lemma PollSkips(s: R.Rx, n: nat)
    requires R.Shape(s) && s.pod.Resting? && !s.pending && (n == 0 || s.fifo == [])
    ensures RP.PollRx(s, n) == s
  {
    hide R.Shape, R.Check, RP.Accept, RP.Stored, R.Finish;
  }

  lemma SliceOfSlice<X>(m: seq<X>, a: nat, n: nat, i: nat, j: nat)
    requires i <= j <= n && a + n <= |m|
    ensures m[a..a + n][i..j] == m[a + i..a + j]
  {
    var b := m[a..a + n];
    assert |b[i..j]| == j - i && forall k :: 0 <= k < j - i ==> b[i..j][k] == m[a + i..a + j][k];
  }

  lemma RxWithFields(rest: R.Rx, form: Form, m: Shared, rxBuf: seq<Byte>, rxPos: nat, last: nat, pending: bool,
                     fifo: seq<Byte>, accepted: seq<Packet>)
    ensures RxWith(rest, form, m, rxBuf, rxPos, last, pending, fifo, accepted).pending == pending
  {}

  /** memcpy, and memmove when the data comes from the same array. */
  method Memcpy(dst: array<Byte>, at: nat, data: seq<Byte>)
    requires at + |data| <= dst.Length
    modifies dst
    ensures dst[..] == PutBlock(old(dst[..]), at, data)
  {
    var n := |data|;
    forall i | 0 <= i < n {
      dst[at + i] := data[i];
    }
    assert dst[..at] == old(dst[..])[..at];
    assert dst[at..at + n] == data;
    assert dst[at + n..] == old(dst[..])[at + n..];
    assert dst[..] == dst[..at] + dst[at..at + n] + dst[at + n..];
  }

  lemma FinishIs(s: R.Rx)
    requires R.Shape(s) && s.pod.Finishing?
    ensures var total := FrameLen(s.rxBuf);
      var excess := Excess(s.form, s.rxPos, total);
      R.Finish(s) ==
        if s.rxPos <= total then s.(pending := false, rxPos := 0, pod := R.Resting)
        else if total + excess > BUF_SIZE then s.(pod := R.Faulted)
        else s.(pending := false, rxBuf := PutBlock(s.rxBuf, 0, s.rxBuf[total..total + excess]), rxPos := excess,
                pod := R.Resting)
  {
    hide FrameLen, Excess;
  }

  lemma Assembled(buf: seq<Byte>, header: seq<Byte>, src: seq<Byte>, addr: nat, len: nat)
    requires |header| == HEADER_SIZE && HEADER_SIZE + len <= |buf| && addr + len <= |src|
    ensures PutBlock(PutBlock(buf, 0, header), HEADER_SIZE, src[addr..addr + len])
      == CopyRest(header + buf[HEADER_SIZE..], src, HEADER_SIZE, addr, 0, len)
  {}

  class Podule {
    const form: Form
    const regs: array<Byte>
    var txOngoing: bool
    var txTotal: nat
    var txPos: nat
    const txBuf: array<Byte>
    var rxPos: nat
    var rxLast: nat
    var rxPending: bool
    const rxBuf: array<Byte>

    /** The USB link: whether it is up, and the bytes waiting to be read. */
    var connected: bool
    var fifo: seq<Byte>
    /** Bytes written to the link, descriptors retired, packets accepted. */
    ghost var wire: seq<Byte>
    ghost var retired: nat
    ghost var accepted: seq<Packet>

    ghost predicate Arrays() {
      && regs.Length == REGS_SIZE && txBuf.Length == BUF_SIZE && rxBuf.Length == BUF_SIZE
      && regs != txBuf && regs != rxBuf && txBuf != rxBuf
    }

    ghost predicate TxValid()
      reads regs, `txOngoing, `txTotal, `txPos
    {
      Arrays() && regs[TX_TAIL] < NUM_DESCRS && (txOngoing ==> txPos <= txTotal <= BUF_SIZE)
    }

    ghost function TxOf(rest: T.Tx): (s: T.Tx)
      requires Arrays()
      reads regs, txBuf, `txOngoing, `txTotal, `txPos, `connected, `wire, `retired
    {
      TxWith(rest, TxShared(regs[..]), txOngoing, txTotal, txPos, txBuf[..], connected, wire, retired)
    }

    lemma TxShape(rest: T.Tx)
      requires TxValid() && ArcTxOk(rest)
      ensures T.Shape(TxOf(rest)) && TxOf(rest).pod.Resting?
    {
      hide ArcTxOk, T.Shape;
      TxWithShape(rest, TxShared(regs[..]), txOngoing, txTotal, txPos, txBuf[..], connected, wire, retired);
    }

    /** `PR_TX_DESCR(r, k)` or `PR_RX_DESCR(r, k)` as a 32-bit load. */
    method LoadDescr(base: nat, k: nat) returns (w: Word32)
      requires Arrays() && DescrBase(base) && k < NUM_DESCRS
      ensures w == LoadWord(DescrAt(regs[..], base, k))
    {
      hide LoadWord;
      var a := base + 4 * k;
      w := LoadWord(Descr(regs[a], regs[a + 1], regs[a + 2], regs[a + 3]));
    }

    method StoreDescr(base: nat, k: nat, w: Word32)
      requires Arrays() && DescrBase(base) && k < NUM_DESCRS
      modifies regs
      ensures regs[..] == PutDescr(old(regs[..]), base, k, StoreWord(w))
    {
      hide StoreWord;
      var a, d := base + 4 * k, StoreWord(w);
      regs[a], regs[a + 1], regs[a + 2], regs[a + 3] := d.b0, d.b1, d.b2, d.b3;
    }

    /** pipe_tx_done. */
    method PipeTxDone(ghost rest: T.Tx)
      requires TxValid() && ArcTxOk(rest)
      modifies regs, `retired
      ensures TxValid() && RxShared(regs[..]) == old(RxShared(regs[..]))
      ensures T.Shape(old(TxOf(rest))) && TxOf(rest) == TP.Retire(old(TxOf(rest)))
    {
      TxShape(rest);
      hide T.Shape, ArcTxOk, LoadWord, StoreWord, ClearReady, NextSlot, DescrAt, TxShared, RxShared, PutDescr;
      var tail := regs[TX_TAIL];
      var w := LoadDescr(TX_DESCRS, tail);
      ghost var m := regs[..];
      TxDescrWritten(m, tail, StoreWord(ClearReady(w)));
      StoreDescr(TX_DESCRS, tail, ClearReady(w));
      TailWritten(regs[..], NextSlot(tail, RING_BITS));
      regs[TX_TAIL] := NextSlot(tail, RING_BITS);
      retired := retired + 1;
    }

    /** tud_cdc_n_write: the FIFO takes at most accept bytes of txBuf[from..to]. */
    method UsbWrite(from: nat, to: nat, accept: nat) returns (n: nat)
      requires Arrays() && from <= to <= BUF_SIZE
      modifies `wire
      ensures n == Min(accept, to - from) <= to - from && wire == old(wire) + txBuf[..][from..from + n]
      ensures from == 0 ==> wire == old(wire) + txBuf[..][..n]
    {
      n := Min(accept, to - from);
      wire := wire + txBuf[from..from + n];
    }

    /** Header and payload are put together in tx_buf. */
    method Assemble(cid: Byte, len: nat, addr: nat)
      requires Arrays() && addr + len < BUFFER_SIZE
      modifies txBuf
      ensures txBuf[..] == CopyRest(Header(cid, len) + old(txBuf[..])[HEADER_SIZE..], TxShared(regs[..]).buf,
                                      HEADER_SIZE, addr, 0, len)
    {
      ghost var buf, header := txBuf[..], Header(cid, len);
      txBuf[0], txBuf[1], txBuf[2] := cid, len % 0x100, (len / 0x100) % 0x100;
      assert txBuf[..] == PutBlock(buf, 0, header);
      SliceOfSlice(regs[..], TX_BUFFERS, BUFFER_SIZE, addr, addr + len);
      Assembled(buf, header, TxShared(regs[..]).buf, addr, len);
      hide PutBlock, CopyRest, Header;
      Memcpy(txBuf, HEADER_SIZE, regs[..][TX_BUFFERS + addr..TX_BUFFERS + addr + len]);
    }

    /** The first write of a packet that has been put together, and what follows from it. */
    method Hand(accept: nat, ghost rest: T.Tx)
      requires TxValid() && ArcTxOk(rest) && txTotal <= BUF_SIZE && !txOngoing
      modifies regs, `txOngoing, `txPos, `wire, `retired
      ensures TxValid() && RxShared(regs[..]) == old(RxShared(regs[..]))
      ensures var s := old(TxOf(rest));
        var n := Min(accept, s.total);
        var t := s.(wire := s.wire + s.txBuf[..n]);
        T.Shape(t) && TxOf(rest) == if n == s.total then TP.Retire(t) else t.(ongoing := true, pos := n)
    {
      hide T.Shape, ArcTxOk, TxShared, RxShared, TP.Retire, Min;
      ghost var s := TxOf(rest);
      var n := UsbWrite(0, txTotal, accept);
      TxShape(rest);
      assert TxOf(rest) == s.(wire := s.wire + s.txBuf[..n]);
      if n == txTotal {
        hide TxWith;
        PipeTxDone(rest);
      } else {
        txOngoing := true;
        txPos := n;
      }
    }

    /** pipe_tx_start past its guard. */
    method Send(cid: Byte, len: nat, addr: nat, accept: nat, ghost rest: T.Tx)
      requires TxValid() && ArcTxOk(rest) && !txOngoing && addr + len < BUFFER_SIZE
      modifies regs, txBuf, `txOngoing, `txTotal, `txPos, `wire, `retired
      ensures TxValid() && RxShared(regs[..]) == old(RxShared(regs[..]))
      ensures T.Shape(old(TxOf(rest))) && TxOf(rest) == Sent(old(TxOf(rest)), Header(cid, len), len, addr, accept)
    {
      TxShape(rest);
      hide T.Shape, ArcTxOk, TxShared, RxShared, Header, CopyRest, TP.Retire;
      Assemble(cid, len, addr);
      txTotal := len + HEADER_SIZE;
      Hand(accept, rest);
    }

    /** pipe_tx_start. */
    method PipeTxStart(descr: Word32, accept: nat, ghost rest: T.Tx)
      requires TxValid() && ArcTxOk(rest) && !txOngoing
      requires descr == LoadWord(DescrAt(regs[..], TX_DESCRS, regs[TX_TAIL]))
      modifies regs, txBuf, `txOngoing, `txTotal, `txPos, `wire, `retired
      ensures TxValid() && RxShared(regs[..]) == old(RxShared(regs[..]))
      ensures T.Shape(old(TxOf(rest))) && TxOf(rest) == TP.StartWhole(old(TxOf(rest)), accept)
    {
      TxShape(rest);
      ghost var s := TxOf(rest);
      StartCases(s, accept);
      assert s.descrs[s.tail] == DescrAt(regs[..], TX_DESCRS, regs[TX_TAIL]);
      hide T.Shape, ArcTxOk, LoadWord, DescrAt, TxShared, RxShared, Header, Sent, SizeField, CidField, AddrField,
        TP.Retire, TP.StartWhole, TxWith;
      var len, cid, addr := SizeField(descr), CidField(descr) % 0x100, AddrField(descr);
      if addr + len >= BUFFER_SIZE {
        PipeTxDone(rest);
      } else {
        Send(cid, len, addr, accept, rest);
      }
    }

    /** The next write of the transfer in progress. */
    method WriteMore(accept: nat, ghost rest: T.Tx)
      requires TxValid() && txOngoing
      modifies `txOngoing, `txPos, `wire
      ensures TxValid()
      ensures var s := old(TxOf(rest));
        var n := Min(accept, s.total - s.pos);
        TxOf(rest) == Written(s, n).(ongoing := s.pos + n < s.total)
    {
      hide TxShared;
      var n := UsbWrite(txPos, txTotal, accept);
      txPos := txPos + n;
      txOngoing := txPos < txTotal;
    }

    /** pipe_tx_continue. */
    method PipeTxContinue(accept: nat, ghost rest: T.Tx)
      requires TxValid() && ArcTxOk(rest) && txOngoing
      modifies regs, `txOngoing, `txPos, `wire, `retired
      ensures TxValid() && RxShared(regs[..]) == old(RxShared(regs[..]))
      ensures T.Shape(old(TxOf(rest))) && TxOf(rest) == TP.RetireIfDone(T.Continue(old(TxOf(rest)), accept))
    {
      TxShape(rest);
      ContinueCases(TxOf(rest), accept);
      hide T.Shape, ArcTxOk, RxShared, TxShared, TP.Retire, TP.RetireIfDone, T.Continue, Min;
      WriteMore(accept, rest);
      if !txOngoing {
        PipeTxDone(rest);
      }
    }

    ghost predicate RxValid()
      reads regs, `rxPos, `rxLast
    {
      Arrays() && regs[RX_HEAD] < NUM_DESCRS && rxPos <= BUF_SIZE && rxLast < NUM_DESCRS
    }

    ghost function RxOf(rest: R.Rx): (s: R.Rx)
      requires Arrays()
      reads regs, rxBuf, `rxPos, `rxLast, `rxPending, `fifo, `accepted
    {
      RxWith(rest, form, RxShared(regs[..]), rxBuf[..], rxPos, rxLast, rxPending, fifo, accepted)
    }

    lemma RxShape(rest: R.Rx)
      requires RxValid() && ArcRxOk(rest)
      ensures R.Shape(RxOf(rest)) && RxOf(rest).pod.Resting?
    {
      hide ArcRxOk, R.Shape;
      RxWithShape(rest, form, RxShared(regs[..]), rxBuf[..], rxPos, rxLast, rxPending, fifo, accepted);
    }

    /** A descriptor made READY at the head of the ring, which then moves on. */
    method PublishRx(w: Word32)
      requires Arrays() && regs[RX_HEAD] < NUM_DESCRS
      modifies regs, `rxLast
      ensures regs[RX_HEAD] < NUM_DESCRS && TxShared(regs[..]) == old(TxShared(regs[..]))
        && rxLast == old(regs[RX_HEAD])
      ensures RxShared(regs[..]) ==
        var m := old(RxShared(regs[..]));
        m.(descrs := m.descrs[m.index := StoreWord(w)], index := NextSlot(m.index, RING_BITS))
    {
      var head := regs[RX_HEAD];
      assert RxShared(regs[..]).index == head;
      T.NextInRing(head, RING_BITS);
      assert NextSlot(head, RING_BITS) < NUM_DESCRS;
      hide StoreWord, NextSlot, DescrAt, TxShared, RxShared, PutDescr;
      RxDescrWritten(regs[..], head, StoreWord(w));
      StoreDescr(RX_DESCRS, head, w);
      HeadWritten(regs[..], NextSlot(head, RING_BITS));
      rxLast := head;
      regs[RX_HEAD] := NextSlot(head, RING_BITS);
    }

    /** pipe_rx_packet past its tests: buffer, descriptor, indices. */
    method Deliver(cid: Byte, len: nat, ghost rest: R.Rx)
      requires RxValid() && ArcRxOk(rest) && rxPos >= HEADER && rxPos >= FrameLen(rxBuf[..])
      requires cid == rxBuf[0] && len == FrameLen(rxBuf[..]) - HEADER && len <= BUFFER_SIZE
      modifies regs, `rxLast, `accepted
      ensures RxValid() && TxShared(regs[..]) == old(TxShared(regs[..]))
      ensures var s := old(RxOf(rest));
        && R.Shape(s) && R.FrontComplete(s) && FrameLen(s.rxBuf) <= BUF_SIZE && RxOf(rest) == Delivered(s)
    {
      RxShape(rest);
      hide R.Shape, ArcRxOk, LoadWord, StoreWord, IsReady, NextSlot, FrameLen, TxShared, RxShared, R.PublishedWord,
        PutBlock,
        DescrAt;
      accepted := accepted + [R.FrontPacket(RxOf(rest))];
      RxBufferWritten(regs[..], rxBuf[HEADER..HEADER + len]);
      Memcpy(regs, RX_BUFFERS, rxBuf[HEADER..HEADER + len]);
      PublishRx(R.PublishedWord(cid, len));
    }

    /** pipe_rx_packet, for the packet at the front of rx_buf. */
    method PipeRxPacket(cid: Byte, len: nat, ghost rest: R.Rx) returns (ok: bool)
      requires RxValid() && ArcRxOk(rest) && rxPos >= HEADER && rxPos >= FrameLen(rxBuf[..])
      requires cid == rxBuf[0] && len == FrameLen(rxBuf[..]) - HEADER
      modifies regs, `rxLast, `accepted
      ensures RxValid() && TxShared(regs[..]) == old(TxShared(regs[..]))
      ensures var s := old(RxOf(rest));
        && R.Shape(s) && R.FrontComplete(s) && (ok <==> !IsReady(LoadWord(s.descrs[s.last])))
        && RxOf(rest) == if ok && FrameLen(s.rxBuf) <= BUF_SIZE then Delivered(s) else s
    {
      RxShape(rest);
      assert RxOf(rest).descrs[rxLast] == DescrAt(regs[..], RX_DESCRS, rxLast);
      hide R.Shape, ArcRxOk, LoadWord, StoreWord, IsReady, NextSlot, FrameLen, TxShared, RxShared, R.PublishedWord,
        PutBlock,
        DescrAt, Delivered;
      var descr := LoadDescr(RX_DESCRS, rxLast);
      ok := !IsReady(descr);
      if ok && len <= BUFFER_SIZE {
        Deliver(cid, len, rest);
      }
    }

    /** The read of pipe_rx. */
    method ReadUsb(n: nat, ghost rest: R.Rx)
      requires RxValid() && ArcRxOk(rest) && !rxPending
      modifies rxBuf, `rxPos, `fifo
      ensures RxValid() && R.Shape(old(RxOf(rest))) && RxOf(rest) == ReadIn(old(RxOf(rest)), n)
    {
      RxShape(rest);
      hide R.Shape, ArcRxOk, RxShared;
      var m := Min(Min(n, |fifo|), BUF_SIZE - rxPos);
      Memcpy(rxBuf, rxPos, fifo[..m]);
      rxPos := rxPos + m;
      fifo := fifo[m..];
    }

    /** The excess, whichever way it is counted, moved to the bottom of the buffer if it lies in it. */
    method MoveDown(total: nat) returns (ok: bool)
      requires Arrays() && HEADER <= total < rxPos <= BUF_SIZE
      modifies rxBuf, `rxPos
      ensures var excess := Excess(form, old(rxPos), total);
        if total + excess > BUF_SIZE then !ok && rxPos == old(rxPos)
        else ok && rxBuf[..] == PutBlock(old(rxBuf[..]), 0, old(rxBuf[..])[total..total + excess]) && rxPos == excess
    {
      hide PutBlock;
      var excess := Excess(form, rxPos, total);
      ok := total + excess <= BUF_SIZE;
      if ok {
        Memcpy(rxBuf, 0, rxBuf[..][total..total + excess]);
        rxPos := excess;
      }
    }

    /** The end of pipe_rx, a packet having been accepted. False if the shuffle ran out of the
        array. */
    method Consume(total: nat, ghost rest: R.Rx) returns (ok: bool)
      requires RxValid() && ArcRxOk(rest) && rxPos >= HEADER && rxPos >= FrameLen(rxBuf[..]) == total
      modifies rxBuf, `rxPos, `rxPending
      ensures RxValid()
      ensures var s := old(RxOf(rest)).(pod := R.Finishing);
        && R.Shape(s) && (ok <==> !R.Finish(s).pod.Faulted?) && (ok ==> RxOf(rest) == R.Finish(s))
    {
      RxShape(rest);
      ghost var s := RxOf(rest).(pod := R.Finishing);
      assert R.Shape(s);
      FinishIs(s);
      hide R.Shape, ArcRxOk, FrameLen, RxShared, R.Finish, Excess, PutBlock;
      rxPending := false;
      ok := true;
      if rxPos > total {
        ok := MoveDown(total);
      } else {
        rxPos := 0;
      }
    }

    /** pipe_rx after its read. */
    method Examine(ghost rest: R.Rx) returns (ok: bool)
      requires RxValid() && ArcRxOk(rest)
      modifies regs, rxBuf, `rxPos, `rxLast, `rxPending, `accepted
      ensures RxValid() && TxShared(regs[..]) == old(TxShared(regs[..]))
      ensures var s := old(RxOf(rest));
        R.Shape(s) && (ok <==> !Examined(s).pod.Faulted?) && (ok ==> RxOf(rest) == Examined(s))
    {
      RxShape(rest);
      hide R.Shape, ArcRxOk, TxShared, RxShared, LoadWord, IsReady, R.Finish, Delivered, R.PublishedWord;
      ok := true;
      if rxPos >= HEADER {
        var len := rxBuf[1] as int + 0x100 * rxBuf[2] as int;
        assert HEADER + len == FrameLen(rxBuf[..]);
        if rxPos >= HEADER + len {
          var accepted := PipeRxPacket(rxBuf[0], len, rest);
          if !accepted {
            rxPending := true;
          } else {
            ok := Consume(HEADER + len, rest);
          }
        }
      }
    }

    /** pipe_rx, n being the bytes the link has available. */
    method PipeRx(n: nat, ghost rest: R.Rx) returns (ok: bool)
      requires RxValid() && ArcRxOk(rest) && (rxPending || (0 < n && fifo != []))
      modifies regs, rxBuf, `rxPos, `rxLast, `rxPending, `fifo, `accepted
      ensures RxValid() && TxShared(regs[..]) == old(TxShared(regs[..]))
      ensures var s := old(RxOf(rest));
        R.Shape(s) && s.pod.Resting? && (ok <==> !RP.PollRx(s, n).pod.Faulted?)
          && (ok ==> RxOf(rest) == RP.PollRx(s, n))
    {
      RxShape(rest);
      PollIs(RxOf(rest), n);
      hide R.Shape, ArcRxOk, TxShared, RxShared, Examined, RP.PollRx, FrameLen;
      if !rxPending {
        ReadUsb(n, rest);
      }
      ok := Examine(rest);
    }

    /** The transmit half of pipe_poll. */
    method PollTransmit(accept: nat, ghost rest: T.Tx)
      requires TxValid() && ArcTxOk(rest)
      modifies regs, txBuf, `txOngoing, `txTotal, `txPos, `wire, `retired
      ensures TxValid() && RxShared(regs[..]) == old(RxShared(regs[..]))
      ensures var s := old(TxOf(rest));
        T.Shape(s) && s.pod.Resting? && TxOf(rest) == TP.PollTx(s, accept)
    {
      TxShape(rest);
      PollTxIs(TxOf(rest), accept);
      assert TxOf(rest).descrs[regs[TX_TAIL]] == DescrAt(regs[..], TX_DESCRS, regs[TX_TAIL]);
      hide T.Shape, ArcTxOk, TxShared, RxShared, TP.PollTx, LoadWord, IsReady, DescrAt, TP.StartWhole, T.Continue,
        TP.Retire,
        TP.RetireIfDone;
      if txOngoing {
        if connected {
          PipeTxContinue(accept, rest);
        } else {
          txOngoing := false;
        }
      } else {
        var tail := regs[TX_TAIL];
        var descr := LoadDescr(TX_DESCRS, tail);
        if IsReady(descr) {
          if connected {
            PipeTxStart(descr, accept, rest);
          } else {
            PipeTxDone(rest);
          }
        }
      }
    }

    /** The receive half of pipe_poll; the transmit side stays as it was. */
    method PollReceive(avail: nat, ghost t: T.Tx, ghost r: R.Rx) returns (ok: bool)
      requires TxValid() && RxValid() && ArcRxOk(r) && avail <= |fifo|
      modifies regs, rxBuf, `rxPos, `rxLast, `rxPending, `fifo, `accepted
      ensures TxValid() && RxValid() && TxOf(t) == old(TxOf(t))
      ensures var s, n := old(RxOf(r)), if connected then avail else 0;
        && R.Shape(s) && s.pod.Resting? && (ok <==> !RP.PollRx(s, n).pod.Faulted?)
        && (ok ==> RxOf(r) == RP.PollRx(s, n))
    {
      hide R.Shape, ArcRxOk, RxShared, RP.PollRx, RxWith;
      var n := if connected then avail else 0;
      ghost var s := RxOf(r);
      RxShape(r);
      ok := true;
      if (connected && avail > 0) || rxPending {
        ok := PipeRx(n, r);
      } else {
        RxWithFields(r, form, RxShared(regs[..]), rxBuf[..], rxPos, rxLast, rxPending, fifo, accepted);
        PollSkips(s, n);
      }
    }

    method PollTransmitOnly(accept: nat, ghost t: T.Tx, ghost r: R.Rx)
      requires TxValid() && RxValid() && ArcTxOk(t)
      modifies regs, txBuf, `txOngoing, `txTotal, `txPos, `wire, `retired
      ensures TxValid() && RxValid() && RxOf(r) == old(RxOf(r))
      ensures var s := old(TxOf(t));
        T.Shape(s) && s.pod.Resting? && TxOf(t) == TP.PollTx(s, accept)
    {
      hide T.Shape, ArcTxOk, TxShared, TP.PollTx;
      PollTransmit(accept, t);
    }

    /** pipe_poll: of `avail` bytes waiting in the link it may read, and of what it writes the link
        takes at most `accept`. Both halves do what the step machines do in an uninterrupted run,
        so they keep the machines' invariants. False if the excess shuffle ran out of its array. */
    method PipePoll(avail: nat, accept: nat, ghost t: T.Tx, ghost r: R.Rx) returns (ok: bool)
      requires TxValid() && RxValid() && ArcTxOk(t) && ArcRxOk(r) && avail <= |fifo|
      modifies this, regs, txBuf, rxBuf
      ensures var s, n := old(RxOf(r)), if old(connected) then avail else 0;
        && R.Shape(s) && s.pod.Resting? && (ok <==> !RP.PollRx(s, n).pod.Faulted?)
        && (ok ==> RxValid() && RxOf(r) == RP.PollRx(s, n))
      ensures ok ==>
        var s := old(TxOf(t));
        T.Shape(s) && s.pod.Resting? && TxValid() && TxOf(t) == TP.PollTx(s, accept)
      ensures !ok ==> TxValid() && TxOf(t) == old(TxOf(t))
      ensures ok && old(T.Inv(TxOf(t))) ==> T.Inv(TxOf(t))
      ensures ok && old(R.Inv(RxOf(r))) ==> R.Inv(RxOf(r))
    {
      hide T.Shape, R.Shape, ArcTxOk, ArcRxOk, TP.PollTx, RP.PollRx, TxOf, RxOf, R.Inv, T.Inv;
      ghost var p, q, n := TxOf(t), RxOf(r), if connected then avail else 0;
      ok := PollReceive(avail, t, r);
      if ok {
        PollTransmitOnly(accept, t, r);
        if R.Inv(q) { RP.PollInvariant(q, n); }
        if T.Inv(p) { TP.PollInvariant(p, accept); }
      }
    }

    /** `memset` of one ring's descriptors. */
    method ClearDescrs(base: nat)
      requires Arrays() && DescrBase(base)
      modifies regs
      ensures regs[..] == PutDescr(PutDescr(old(regs[..]), base, 0, EMPTY), base, 1, EMPTY)
    {
      forall i | 0 <= i < 4 * NUM_DESCRS {
        regs[base + i] := 0;
      }
    }

    /** pipe_init. With a fresh history this is an initial state of both machines, whatever the
        buffers hold, if the Archimedes is idle with both its indices zero. */
    method PipeInit(ghost t: T.Tx, ghost r: R.Rx)
      requires Arrays() && ArcTxOk(t) && ArcRxOk(r)
      modifies regs, `txOngoing, `txPos, `rxPos, `rxLast, `rxPending
      ensures TxValid() && RxValid()
      ensures TxShared(regs[..]) == Shared([EMPTY, EMPTY], old(TxShared(regs[..])).buf, 0)
      ensures RxShared(regs[..]) == Shared([EMPTY, EMPTY], old(RxShared(regs[..])).buf, 0)
      ensures t.arc.Idle? && t.head == 0 && t.calls == [] && t.steady == connected && wire == [] && retired == 0 ==>
        T.Initial(TxOf(t))
      ensures
        (&& r.arc.Idle? && r.tail == 0 && r.given == [] && r.received == [] && r.owed == []
         && fifo == [] && accepted == []) ==>
        R.Initial(RxOf(r))
    {
      ZeroRegs();
      txOngoing := false;
      rxPos := 0;
      txPos := 0;
      rxLast := 0;
      rxPending := false;
      TxShape(t);
      RxShape(r);
      hide T.Shape, R.Shape, TxShared, RxShared;
    }

    /** The register half of pipe_init. */
    method ZeroRegs()
      requires Arrays()
      modifies regs
      ensures TxShared(regs[..]) == Shared([EMPTY, EMPTY], old(TxShared(regs[..])).buf, 0)
      ensures RxShared(regs[..]) == Shared([EMPTY, EMPTY], old(RxShared(regs[..])).buf, 0)
      ensures regs[TX_TAIL] == 0 && regs[RX_HEAD] == 0
    {
      hide TxShared, RxShared, PutDescr, DescrAt;
      ghost var m := regs[..];
      CleanTx(m);
      ClearDescrs(TX_DESCRS);
      CleanRx(regs[..]);
      ClearDescrs(RX_DESCRS);
      TailWritten(regs[..], 0);
      regs[TX_TAIL] := 0;
      HeadWritten(regs[..], 0);
      regs[RX_HEAD] := 0;
    }
  }

  const EMPTY: Descr := Descr(0, 0, 0, 0)

  lemma CleanTx(m: seq<Byte>)
    requires |m| == REGS_SIZE
    ensures var r := PutDescr(PutDescr(m, TX_DESCRS, 0, EMPTY), TX_DESCRS, 1, EMPTY);
      TxShared(r) == TxShared(m).(descrs := [EMPTY, EMPTY]) && RxShared(r) == RxShared(m)
  {
    assert |TxShared(m).descrs| == NUM_DESCRS;
    hide TxShared, RxShared, PutDescr;
    TxDescrWritten(m, 0, EMPTY);
    TxDescrWritten(PutDescr(m, TX_DESCRS, 0, EMPTY), 1, EMPTY);
    assert TxShared(m).descrs[0 := EMPTY][1 := EMPTY] == [EMPTY, EMPTY];
  }

  lemma CleanRx(m: seq<Byte>)
    requires |m| == REGS_SIZE
    ensures var r := PutDescr(PutDescr(m, RX_DESCRS, 0, EMPTY), RX_DESCRS, 1, EMPTY);
      RxShared(r) == RxShared(m).(descrs := [EMPTY, EMPTY]) && TxShared(r) == TxShared(m)
  {
    assert |RxShared(m).descrs| == NUM_DESCRS;
    hide TxShared, RxShared, PutDescr;
    RxDescrWritten(m, 0, EMPTY);
    RxDescrWritten(PutDescr(m, RX_DESCRS, 0, EMPTY), 1, EMPTY);
    assert RxShared(m).descrs[0 := EMPTY][1 := EMPTY] == [EMPTY, EMPTY];
  }
}
