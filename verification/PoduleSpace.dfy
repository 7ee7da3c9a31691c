/** podule_regs.h: where the descriptor rings, their indices and the two packet buffers lie in the
    2 KB register space, and that they do not overlap. */
module PoduleSpace {
  import opened Bits
  import opened PoduleRegs
  import opened Memory

  const REGS_SIZE: nat := 2048
  const RING_BITS: nat := 1
  const NUM_DESCRS: nat := 2
  const TX_TAIL: nat := 0x40
  const RX_HEAD: nat := 0x41
  const TX_DESCRS: nat := 0x80
  const RX_DESCRS: nat := 0xa0
  const TX_BUFFERS: nat := 0x400
  const RX_BUFFERS: nat := 0x600

  /** One direction's part of the register space. */
  datatype Shared = Shared(descrs: seq<Descr>, buf: seq<Byte>, index: nat)

  predicate DescrBase(base: nat) { base == TX_DESCRS || base == RX_DESCRS }

  function DescrAt(m: seq<Byte>, base: nat, k: nat): Descr
    requires |m| == REGS_SIZE && DescrBase(base) && k < NUM_DESCRS
  {
    var a := base + 4 * k;
    Descr(m[a], m[a + 1], m[a + 2], m[a + 3])
  }

  function TxShared(m: seq<Byte>): Shared
    requires |m| == REGS_SIZE
  {
    Shared([DescrAt(m, TX_DESCRS, 0), DescrAt(m, TX_DESCRS, 1)], m[TX_BUFFERS..TX_BUFFERS + BUFFER_SIZE], m[TX_TAIL])
  }

  function RxShared(m: seq<Byte>): Shared
    requires |m| == REGS_SIZE
  {
    Shared([DescrAt(m, RX_DESCRS, 0), DescrAt(m, RX_DESCRS, 1)], m[RX_BUFFERS..RX_BUFFERS + BUFFER_SIZE], m[RX_HEAD])
  }

  function PutDescr(m: seq<Byte>, base: nat, k: nat, d: Descr): (r: seq<Byte>)
    requires |m| == REGS_SIZE && DescrBase(base) && k < NUM_DESCRS
    ensures |r| == REGS_SIZE
  {
    var a := base + 4 * k;
    m[a := d.b0][a + 1 := d.b1][a + 2 := d.b2][a + 3 := d.b3]
  }

  /** The register map, in bytes from the start of the space. */
  lemma RegisterMap(m: seq<Byte>, k: nat)
    requires |m| == REGS_SIZE && k < 2
    ensures |m| == 0x800
    ensures var d := TxShared(m).descrs[k];
      d == Descr(m[0x80 + 4 * k], m[0x81 + 4 * k], m[0x82 + 4 * k], m[0x83 + 4 * k])
    ensures var d := RxShared(m).descrs[k];
      d == Descr(m[0xa0 + 4 * k], m[0xa1 + 4 * k], m[0xa2 + 4 * k], m[0xa3 + 4 * k])
    ensures TxShared(m).index == m[0x40] && RxShared(m).index == m[0x41]
    ensures TxShared(m).buf == m[0x400..0x600] && RxShared(m).buf == m[0x600..0x800]
  {}

  lemma TxDescrWritten(m: seq<Byte>, k: nat, d: Descr)
    requires |m| == REGS_SIZE && k < NUM_DESCRS
    ensures var r := PutDescr(m, TX_DESCRS, k, d);
      && TxShared(r) == TxShared(m).(descrs := TxShared(m).descrs[k := d]) && RxShared(r) == RxShared(m)
  {
    var r := PutDescr(m, TX_DESCRS, k, d);
    assert r[TX_BUFFERS..TX_BUFFERS + BUFFER_SIZE] == m[TX_BUFFERS..TX_BUFFERS + BUFFER_SIZE];
    assert r[RX_BUFFERS..RX_BUFFERS + BUFFER_SIZE] == m[RX_BUFFERS..RX_BUFFERS + BUFFER_SIZE];
    assert TxShared(m).descrs[k := d] == TxShared(r).descrs;
  }

  lemma RxDescrWritten(m: seq<Byte>, k: nat, d: Descr)
    requires |m| == REGS_SIZE && k < NUM_DESCRS
    ensures var r := PutDescr(m, RX_DESCRS, k, d);
      && RxShared(r) == RxShared(m).(descrs := RxShared(m).descrs[k := d]) && TxShared(r) == TxShared(m)
  {
    var r := PutDescr(m, RX_DESCRS, k, d);
    assert r[TX_BUFFERS..TX_BUFFERS + BUFFER_SIZE] == m[TX_BUFFERS..TX_BUFFERS + BUFFER_SIZE];
    assert r[RX_BUFFERS..RX_BUFFERS + BUFFER_SIZE] == m[RX_BUFFERS..RX_BUFFERS + BUFFER_SIZE];
    assert RxShared(m).descrs[k := d] == RxShared(r).descrs;
  }

  lemma TailWritten(m: seq<Byte>, b: Byte)
    requires |m| == REGS_SIZE
    ensures var r := m[TX_TAIL := b];
      TxShared(r) == TxShared(m).(index := b) && RxShared(r) == RxShared(m)
  {
    var r := m[TX_TAIL := b];
    assert r[TX_BUFFERS..TX_BUFFERS + BUFFER_SIZE] == m[TX_BUFFERS..TX_BUFFERS + BUFFER_SIZE];
    assert r[RX_BUFFERS..RX_BUFFERS + BUFFER_SIZE] == m[RX_BUFFERS..RX_BUFFERS + BUFFER_SIZE];
  }

  lemma HeadWritten(m: seq<Byte>, b: Byte)
    requires |m| == REGS_SIZE
    ensures var r := m[RX_HEAD := b];
      RxShared(r) == RxShared(m).(index := b) && TxShared(r) == TxShared(m)
  {
    var r := m[RX_HEAD := b];
    assert r[TX_BUFFERS..TX_BUFFERS + BUFFER_SIZE] == m[TX_BUFFERS..TX_BUFFERS + BUFFER_SIZE];
    assert r[RX_BUFFERS..RX_BUFFERS + BUFFER_SIZE] == m[RX_BUFFERS..RX_BUFFERS + BUFFER_SIZE];
  }

  lemma RxBufferWritten(m: seq<Byte>, data: seq<Byte>)
    requires |m| == REGS_SIZE && |data| <= BUFFER_SIZE
    ensures var r := PutBlock(m, RX_BUFFERS, data);
      RxShared(r) == RxShared(m).(buf := PutBlock(RxShared(m).buf, 0, data)) && TxShared(r) == TxShared(m)
  {
    var r := PutBlock(m, RX_BUFFERS, data);
    assert r[TX_BUFFERS..TX_BUFFERS + BUFFER_SIZE] == m[TX_BUFFERS..TX_BUFFERS + BUFFER_SIZE];
    assert r[RX_BUFFERS..RX_BUFFERS + BUFFER_SIZE]
        == PutBlock(m[RX_BUFFERS..RX_BUFFERS + BUFFER_SIZE], 0, data);
    assert forall i :: 0 <= i < RX_BUFFERS ==> r[i] == m[i];
  }
}
