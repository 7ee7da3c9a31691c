/** podule_regs.h: packet descriptors. The podule reads and writes a descriptor as one
    32-bit word; the Archimedes sees the same word as four byte-wide locations. */
module PoduleRegs {
  import opened Bits

  const DESCR_READY: Word32 := 0x80000000
  const DESCR_ADDR_MASK: Word32 := 0x000001ff
  const DESCR_SIZE_MASK: Word32 := 0x001ff000
  const DESCR_CID_MASK: Word32 := 0x7f000000
  const DESCR_ADDR_SHIFT: nat := 0
  const DESCR_SIZE_SHIFT: nat := 12
  const DESCR_CID_SHIFT: nat := 24
  const BUFFER_SIZE: nat := 512
  const HEADER_SIZE: nat := 3

  /** A descriptor as the four bytes in memory, least significant first. */
  datatype Descr = Descr(b0: Byte, b1: Byte, b2: Byte, b3: Byte)

  function LoadWord(d: Descr): Word32 {
    d.b0 + 0x100 * d.b1 + 0x1_0000 * d.b2 + 0x100_0000 * d.b3
  }

  function StoreWord(w: Word32): Descr {
    var w1 := w / 0x100;
    var w2 := w1 / 0x100;
    Descr(w % 0x100, w1 % 0x100, w2 % 0x100, w2 / 0x100)
  }

  // ---- The podule's macros

  predicate IsReady(w: Word32) { And(w, DESCR_READY) != 0 }

  function AddrField(w: Word32): nat { Lsr(And(w, DESCR_ADDR_MASK), DESCR_ADDR_SHIFT) }

  function SizeField(w: Word32): nat { Lsr(And(w, DESCR_SIZE_MASK), DESCR_SIZE_SHIFT) + 1 }

  function CidField(w: Word32): nat { Lsr(And(w, DESCR_CID_MASK), DESCR_CID_SHIFT) }

  /** `w & ~READY`. */
  function ClearReady(w: Word32): Word32 { And(w, 0x7fff_ffff) }

  /** The word that pipe_rx_packet stores; its address field is 0,
      and `len - 1` wraps for an empty packet. */
  function PoduleDescr(cid: Byte, len: nat): nat
    requires len < 0x1_0000
  {
    Or(Or(Or(Lsl(cid, DESCR_CID_SHIFT), Lsl(Sub32(len, 1), DESCR_SIZE_SHIFT)), 0), DESCR_READY)
  }

  // ---- The Archimedes' shift sequences

  /** The word that pipe_packet_tx builds in r9 from the length and the channel register. */
  function ArcDescr(cid: Word32, len: nat): nat
    requires 1 <= len <= BUFFER_SIZE
  {
    var size := Lsr(Lsl(len - 1, 23), 23 - DESCR_SIZE_SHIFT);
    var channel := Lsr(Lsl(cid, 25), 25 - DESCR_CID_SHIFT);
    Or(Or(Or(0, size), channel), DESCR_READY)
  }

  /** The word that pipe_packet_rx assembles in r4 from four byte loads. */
  function ArcWord(d: Descr): nat {
    Or(Or(Or(d.b0, Lsl(d.b1, BYTE_BITS)), Lsl(d.b2, 2 * BYTE_BITS)), Lsl(d.b3, 3 * BYTE_BITS))
  }

  function ArcLen(w: nat): nat { Lsr(Lsl(w, WORD_BITS - DESCR_SIZE_SHIFT - 9), WORD_BITS - 9) + 1 }

  function ArcCid(w: nat): nat { Lsr(Lsl(w, WORD_BITS - DESCR_CID_SHIFT - 7), WORD_BITS - 7) }

  /** The offset that pipe_packet_rx adds to the RX buffer's address, where consecutive
      bytes are four apart. */
  function ArcOffset(w: nat): nat { Lsr(Lsl(w, WORD_BITS - DESCR_ADDR_SHIFT - 9), WORD_BITS - 7) }

  /** `tst rX, #0x80` on the byte that holds the READY bit. */
  predicate TopBitSet(b: Byte) { And(b, 0x80) != 0 }

  // ---- Laws

  lemma StoreLoad(w: Word32)
    ensures LoadWord(StoreWord(w)) == w
  {}

  lemma LoadStore(d: Descr)
    ensures StoreWord(LoadWord(d)) == d
  {
    var w := LoadWord(d);
    assert w / 0x100 == d.b1 + 0x100 * d.b2 + 0x1_0000 * d.b3;
    assert w / 0x100 / 0x100 == d.b2 + 0x100 * d.b3;
  }

  lemma TopBit(b: Byte)
    ensures TopBitSet(b) <==> b >= 0x80
  {
    ScaleTable(1);
    AndHighMask(b, 7, 1);
    LsrIsDiv(b, 7);
    AndOdd(b / 0x80, 0);
    ScaleTable(b / 0x80);
  }

  lemma ReadyIsTopBit(w: Word32)
    ensures IsReady(w) <==> w >= DESCR_READY
  {
    ScaleTable(1);
    AndHighMask(w, 31, 1);
    LsrIsDiv(w, 31);
    AndOdd(w / DESCR_READY, 0);
    ScaleTable(w / DESCR_READY);
  }

  lemma ClearReadyIs(w: Word32)
    ensures ClearReady(w) == w % DESCR_READY
  {
    ScaleTable(1);
    LsrIsDiv(w, 31);
    AndLowMask(w, 31);
  }

  /** Whatever the other three bytes hold, the podule sees READY exactly when the Archimedes
      sees the top bit of the last byte; clearing it changes that byte only. */
  lemma ReadyByte(d: Descr)
    ensures IsReady(LoadWord(d)) <==> TopBitSet(d.b3)
    ensures var c := StoreWord(ClearReady(LoadWord(d)));
      c.b0 == d.b0 && c.b1 == d.b1 && c.b2 == d.b2 && !TopBitSet(c.b3)
  {
    ReadyIsTopBit(LoadWord(d));
    TopBit(d.b3);
    ClearReadyIs(LoadWord(d));
    var e := if d.b3 >= 0x80 then d.(b3 := d.b3 - 0x80) else d;
    assert LoadWord(e) == ClearReady(LoadWord(d));
    LoadStore(e);
    TopBit(e.b3);
  }

  lemma FieldsOf(w: Word32)
    ensures AddrField(w) == w % 0x200
    ensures SizeField(w) == (w / 0x1000) % 0x200 + 1
    ensures CidField(w) == (w / 0x100_0000) % 0x80
  {
    ScaleTable(1);
    assert Pow2(9) == 0x200;
    AndLowMask(w, 9);
    FieldAt(w, 12, 9);
    ScaleTable(0x1ff);
    FieldAt(w, 24, 7);
    ScaleTable(0x7f);
  }

  lemma FieldAt(w: nat, shift: nat, width: nat)
    ensures Lsr(And(w, Scale(Pow2(width) - 1, shift)), shift) == (w / Pow2(shift)) % Pow2(width)
    ensures Pow2(shift) == Scale(1, shift)
  {
    AndHighMask(w, shift, Pow2(width) - 1);
    LsrIsDiv(w, shift);
    AndLowMask(w / Pow2(shift), width);
    LsrScale((w / Pow2(shift)) % Pow2(width), 0, shift);
  }

  /** A ready descriptor's word, field by field. */
  function Layout(cid: nat, size: nat): nat {
    DESCR_READY + 0x100_0000 * cid + 0x1000 * size
  }

  lemma ArcSizeIs(s: nat)
    requires s < 0x200
    ensures Lsr(Lsl(s, 23), 23 - 12) == Scale(s, 12)
  {
    hide Scale, Lsr;
    ScaleTable(s);
    LsrScale(s, 12, 11);
  }

  lemma ArcChannelIs(cid: Word32)
    ensures Lsr(Lsl(cid, 25), 25 - 24) == Scale(cid % 0x80, 24)
  {
    hide Scale, Lsr;
    ScaleTable(cid);
    ScaleTable(cid % 0x80);
    ShiftOut(cid);
    LsrScale(cid % 0x80, 24, 1);
  }

  /** Size, channel and READY occupy disjoint bits: or-ing them adds them. */
  lemma FieldsDisjoint(c: nat, s: nat)
    requires c < 0x80 && s < 0x200
    ensures Or(Or(Scale(s, 12), Scale(c, 24)), DESCR_READY) == Layout(c, s)
    ensures Or(Or(Scale(c, 24), Scale(s, 12)), DESCR_READY) == Layout(c, s)
  {
    hide Scale, Or;
    ScaleTable(1);
    ScaleTable(s);
    ScaleTable(c);
    OrDisjoint(c, 24, Scale(s, 12));
    OrCommutes(Scale(s, 12), Scale(c, 24));
    OrDisjoint(1, 31, Scale(c, 24) + Scale(s, 12));
    OrCommutes(Scale(c, 24) + Scale(s, 12), DESCR_READY);
  }

  lemma ArcDescrIs(cid: Word32, len: nat)
    requires 1 <= len <= BUFFER_SIZE
    ensures ArcDescr(cid, len) == Layout(cid % 0x80, len - 1)
  {
    ArcSizeIs(len - 1);
    ArcChannelIs(cid);
    FieldsDisjoint(cid % 0x80, len - 1);
  }

  lemma ShiftOut(cid: Word32)
    ensures (0x200_0000 * cid) % WORD_MODULUS == 0x200_0000 * (cid % 0x80)
  {
    assert 0x200_0000 * cid == WORD_MODULUS * (cid / 0x80) + 0x200_0000 * (cid % 0x80);
    DivModIs(0x200_0000 * cid, WORD_MODULUS, cid / 0x80, 0x200_0000 * (cid % 0x80));
  }

  lemma OrAtBytes(c: Byte, b: nat)
    ensures b < 0x100 ==> Or(0x100 * c, b) == 0x100 * c + b && Or(b, 0x100 * c) == 0x100 * c + b
    ensures b < 0x1_0000 ==> Or(0x1_0000 * c, b) == 0x1_0000 * c + b && Or(b, 0x1_0000 * c) == 0x1_0000 * c + b
    ensures b < 0x100_0000 ==>
      Or(0x100_0000 * c, b) == 0x100_0000 * c + b && Or(b, 0x100_0000 * c) == 0x100_0000 * c + b
  {
    hide Scale, Or;
    ScaleTable(1);
    ScaleTable(c);
    if b < 0x100 { OrAt(c, 8, 0x100, b); }
    if b < 0x1_0000 { OrAt(c, 16, 0x1_0000, b); }
    if b < 0x100_0000 { OrAt(c, 24, 0x100_0000, b); }
  }

  lemma LslBytes(c: Byte)
    ensures Lsl(c, 8) == 0x100 * c && Lsl(c, 16) == 0x1_0000 * c && Lsl(c, 24) == 0x100_0000 * c
  {
    hide Scale, Or;
    ScaleTable(c);
  }

  lemma OrReady(w: Word32)
    ensures Or(w, DESCR_READY) == if w < DESCR_READY then DESCR_READY + w else w
  {
    hide Scale, Or;
    ScaleTable(1);
    OrTopBit(w, 31);
  }

  lemma PoduleSizeIs(s: nat)
    requires s < 0x200
    ensures Lsl(s, 12) == 0x1000 * s
  {
    hide Scale, Or;
    ScaleTable(s);
  }

  lemma PoduleDescrIs(cid: Byte, len: nat)
    requires 1 <= len <= BUFFER_SIZE
    ensures PoduleDescr(cid, len) == Layout(cid % 0x80, len - 1)
  {
    var s := len - 1;
    var w := 0x100_0000 * cid + 0x1000 * s;
    assert Sub32(len, 1) == s;
    PoduleOr(cid, s, w);
    OrReady(w);
    TopBitDropped(cid, s, w);
  }

  lemma TopBitDropped(cid: Byte, s: nat, w: nat)
    requires s < 0x200 && w == 0x100_0000 * cid + 0x1000 * s
    ensures (if w < DESCR_READY then DESCR_READY + w else w) == Layout(cid % 0x80, s)
  {}

  lemma PoduleOr(cid: Byte, s: nat, w: nat)
    requires s < 0x200 && w == 0x100_0000 * cid + 0x1000 * s
    ensures Or(Or(Lsl(cid, 24), Lsl(s, 12)), 0) == w
  {
    PoduleSizeIs(s);
    LslBytes(cid);
    OrAtBytes(cid, 0x1000 * s);
  }

  lemma AllOnes(cid: Byte)
    ensures Or(0x100_0000 * cid, 0xffff_f000) == 0xffff_f000
  {
    hide Scale, Or;
    ScaleTable(1);
    ScaleTable(cid);
    ScaleTable(0xff);
    OrOnes(cid, 8);
    OrAbove(cid, 0xff, 24, 0xff_f000);
  }

  lemma EmptySize()
    ensures Lsl(Sub32(0, 1), 12) == 0xffff_f000
  {
    ScaleTable(0xffff_ffff);
  }

  /** The size field of an empty packet borrows from every field above it. */
  lemma PoduleDescrEmpty(cid: Byte)
    ensures PoduleDescr(cid, 0) == 0xffff_f000
  {
    LslBytes(cid);
    EmptySize();
    AllOnes(cid);
    OrReady(0xffff_f000);
  }

  lemma ArcWordIs(d: Descr)
    ensures ArcWord(d) == LoadWord(d)
  {
    LslBytes(d.b1);
    LslBytes(d.b2);
    LslBytes(d.b3);
    OrAtBytes(d.b1, d.b0);
    OrAtBytes(d.b2, 0x100 * d.b1 + d.b0);
    OrAtBytes(d.b3, 0x1_0000 * d.b2 + 0x100 * d.b1 + d.b0);
  }

  lemma LslWords(w: Word32)
    ensures Lsl(w, 1) == 2 * (w % 0x8000_0000)
    ensures Lsl(w, 11) == 0x800 * (w % 0x20_0000)
    ensures Lsl(w, 23) == 0x80_0000 * (w % 0x200)
  {
    hide Scale;
    ScaleTable(w);
    DivModIs(2 * w, WORD_MODULUS, w / 0x8000_0000, 2 * (w % 0x8000_0000));
    DivModIs(0x800 * w, WORD_MODULUS, w / 0x20_0000, 0x800 * (w % 0x20_0000));
    DivModIs(0x80_0000 * w, WORD_MODULUS, w / 0x200, 0x80_0000 * (w % 0x200));
  }

  lemma ArcFieldsOf(w: Word32)
    ensures ArcLen(w) == (w / 0x1000) % 0x200 + 1
    ensures ArcCid(w) == (w / 0x100_0000) % 0x80
    ensures ArcOffset(w) == (w % 0x200) / 4
  {
    hide Lsl, Lsr;
    LslWords(w);
    LsrTable(0x800 * (w % 0x20_0000));
    LsrTable(2 * (w % 0x8000_0000));
    LsrTable(0x80_0000 * (w % 0x200));
    ShiftedFields(w);
  }

  lemma ShiftedFields(w: Word32)
    ensures (0x800 * (w % 0x20_0000)) / 0x80_0000 == (w / 0x1000) % 0x200
    ensures (2 * (w % 0x8000_0000)) / 0x200_0000 == (w / 0x100_0000) % 0x80
    ensures (0x80_0000 * (w % 0x200)) / 0x200_0000 == (w % 0x200) / 4
  {
    SizeBits(w);
    ChannelBits(w);
  }

  lemma SizeBits(w: Word32)
    ensures (0x800 * (w % 0x20_0000)) / 0x80_0000 == (w / 0x1000) % 0x200
  {
    var q, m := w / 0x20_0000, w % 0x20_0000;
    var s, a := m / 0x1000, m % 0x1000;
    DivModIs(w, 0x1000, 0x200 * q + s, a);
    DivModIs(w / 0x1000, 0x200, q, s);
    DivModIs(0x800 * m, 0x80_0000, s, 0x800 * a);
  }

  lemma ChannelBits(w: Word32)
    ensures (2 * (w % 0x8000_0000)) / 0x200_0000 == (w / 0x100_0000) % 0x80
  {
    var q, m := w / 0x8000_0000, w % 0x8000_0000;
    var c, a := m / 0x100_0000, m % 0x100_0000;
    DivModIs(w, 0x100_0000, 0x80 * q + c, a);
    DivModIs(w / 0x100_0000, 0x80, q, c);
    DivModIs(2 * m, 0x200_0000, c, 2 * a);
  }

  lemma LayoutFields(c: nat, s: nat)
    requires c < 0x80 && s < 0x200
    ensures Layout(c, s) < WORD_MODULUS && Layout(c, s) >= DESCR_READY
    ensures Layout(c, s) % 0x200 == 0
    ensures (Layout(c, s) / 0x1000) % 0x200 == s
    ensures (Layout(c, s) / 0x100_0000) % 0x80 == c
  {
    DivModIs(Layout(c, s), 0x200, 0x40_0000 + 0x8000 * c + 8 * s, 0);
    DivModIs(Layout(c, s), 0x1000, 0x8_0000 + 0x1000 * c + s, 0);
    DivModIs(Layout(c, s) / 0x1000, 0x200, 0x400 + 8 * c, s);
    DivModIs(Layout(c, s), 0x100_0000, 0x80 + c, 0x1000 * s);
  }

  /** Transmit direction: the podule decodes what the Archimedes encoded. The channel register
      keeps its low seven bits. */
  lemma TxCodec(cid: Word32, len: nat)
    requires 1 <= len <= BUFFER_SIZE
    ensures var w := ArcDescr(cid, len);
      w < WORD_MODULUS && IsReady(w) && AddrField(w) == 0 && SizeField(w) == len && CidField(w) == cid % 0x80
  {
    ArcDescrIs(cid, len);
    LayoutFields(cid % 0x80, len - 1);
    var w := ArcDescr(cid, len);
    FieldsOf(w);
    ReadyIsTopBit(w);
  }

  /** Receive direction: the Archimedes decodes what the podule encoded. */
  lemma RxCodec(cid: Byte, len: nat)
    requires 1 <= len <= BUFFER_SIZE
    ensures var w := PoduleDescr(cid, len);
      w < WORD_MODULUS && IsReady(w) && ArcWord(StoreWord(w)) == w
      && ArcLen(w) == len && ArcCid(w) == cid % 0x80 && ArcOffset(w) == 0
  {
    PoduleDescrIs(cid, len);
    LayoutFields(cid % 0x80, len - 1);
    RxWord(PoduleDescr(cid, len));
  }

  lemma RxWordOfOnes(w: Word32)
    requires w == 0xffff_f000
    ensures ArcLen(ArcWord(StoreWord(w))) == BUFFER_SIZE && ArcCid(ArcWord(StoreWord(w))) == 0x7f
  {
    var size, channel := w / 0x1000, w / 0x100_0000;
    assert size % 0x200 == 0x1ff && channel % 0x80 == 0x7f;
    RxFields(w, size, channel);
  }

  lemma RxFields(w: Word32, size: nat, channel: nat)
    requires size == w / 0x1000 && channel == w / 0x100_0000
    ensures ArcLen(ArcWord(StoreWord(w))) == size % 0x200 + 1 && ArcCid(ArcWord(StoreWord(w))) == channel % 0x80
  {
    RxWord(w);
  }

  /** Over every length the podule can hold, the round trip is exact unless the packet is empty:
      an empty packet reaches the Archimedes as 512 bytes on channel 127. */
  lemma RxCodecExact(cid: Byte, len: nat)
    requires len <= BUFFER_SIZE
    ensures PoduleDescr(cid, len) < WORD_MODULUS
    ensures var w := ArcWord(StoreWord(PoduleDescr(cid, len)));
      ArcLen(w) == len && ArcCid(w) == cid % 0x80 <==> len >= 1
  {
    if len == 0 {
      PoduleDescrEmpty(cid);
      RxWordOfOnes(PoduleDescr(cid, len));
    } else {
      RxCodec(cid, len);
    }
  }

  lemma RxWord(w: Word32)
    ensures var r := ArcWord(StoreWord(w));
      r == w && ArcLen(r) == (w / 0x1000) % 0x200 + 1 && ArcCid(r) == (w / 0x100_0000) % 0x80
      && ArcOffset(r) == (w % 0x200) / 4
    ensures IsReady(w) <==> w >= DESCR_READY
  {
    StoreLoad(w);
    ArcWordIs(StoreWord(w));
    ArcFieldsOf(w);
    ReadyIsTopBit(w);
  }

  /** The offset into a buffer of word-spaced bytes should be four times the address field;
      the shift pair yields that only for address 0. */
  lemma RxAddressOnlyZero(w: Word32)
    ensures ArcOffset(w) == 4 * AddrField(w) <==> AddrField(w) == 0
  {
    ArcFieldsOf(w);
    FieldsOf(w);
  }
}
