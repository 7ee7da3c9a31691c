/** The podule chunk directory: the layout that tools/mk_chunk_dir.py gives it, as functions on
    values, a parser for it, and what the parser makes of what the tool writes. */
module ChunkFormat {
  import opened Bits
  import opened Words
  import opened Wrappers

  /** A CDEntry: operating system and type numbers, and the payload. */
  datatype Entry = Entry(os: nat, d: nat, data: seq<Byte>)

  /** What a reader of the directory gets for one entry. */
  datatype Chunk = Chunk(osib: Byte, data: seq<Byte>)

  const ENTRY: nat := 8
  const SIZE_LIMIT: nat := 0x100_0000

  /** getOSIB. */
  function OSIB(e: Entry): (b: nat)
    ensures b < 0x100
  {
    Identity(e);
    Or(And(e.d, 0xf), Scale(And(e.os, 0xf), 4))
  }

  lemma Identity(e: Entry)
    ensures Or(And(e.d, 0xf), Scale(And(e.os, 0xf), 4)) == 16 * (e.os % 16) + e.d % 16
  {
    hide Or, And;
    AndLowMask(e.d, 4);
    AndLowMask(e.os, 4);
    assert Pow2(4) == 16;
    OrDisjoint(e.os % 16, 4, e.d % 16);
    OrCommutes(e.d % 16, Scale(e.os % 16, 4));
  }

  lemma OSIBIs(e: Entry)
    ensures OSIB(e) == 16 * (e.os % 16) + e.d % 16
  {
    Identity(e);
    hide Or, And;
  }

  // ---- The two rounding formulas

  /** `(l + 3) & ~3`: clears the two low bits. */
  function RoundUp(l: nat): nat { (l + 3) - And(l + 3, 3) }

  /** `(4 - size) & 3`, on Python's unbounded integers. */
  function Padding(size: nat): (n: nat)
    ensures n < 4
  {
    (4 - size) % 4
  }

  lemma {:induction false} PaddingIs(l: nat)
    ensures l + Padding(l) == (l + 3) - (l + 3) % 4
  {
    if l >= 4 { PaddingIs(l - 4); }
  }

  /** The pass that computes addresses and the pass that writes bytes agree on every size. */
  lemma RoundingAgrees(l: nat)
    ensures l + Padding(l) == RoundUp(l) && RoundUp(l) % 4 == 0 && l <= RoundUp(l) < l + 4
  {
    hide And, Padding;
    AndLowMask(l + 3, 2);
    assert Pow2(2) == 4;
    PaddingIs(l);
  }

  // ---- Addresses, as calculate() accumulates them

  function Running(es: seq<Entry>, k: nat): nat
    requires k <= |es|
  {
    if k == 0 then 0 else Running(es, k - 1) + RoundUp(|es[k - 1].data|)
  }

  function Address(es: seq<Entry>, offset: nat, k: nat): nat
    requires k <= |es|
  {
    offset + (|es| + 1) * ENTRY + Running(es, k)
  }

  // ---- Bytes, as render() writes them

  /** `struct.pack('<BBBBI', …)`. */
  function EntryBytes(e: Entry, addr: nat): (b: seq<Byte>)
    ensures |b| == ENTRY
  {
    var s := |e.data|;
    [OSIB(e), s % 0x100, (s / 0x100) % 0x100, (s / 0x1_0000) % 0x100] + Le32(addr)
  }

  function Zeros(n: nat): (b: seq<Byte>)
    ensures |b| == n && forall i :: 0 <= i < n ==> b[i] == 0
  {
    if n == 0 then [] else Zeros(n - 1) + [0]
  }

  function Directory(es: seq<Entry>, offset: nat, k: nat): (b: seq<Byte>)
    requires k <= |es|
    ensures |b| == ENTRY * k
  {
    if k == 0 then [] else Directory(es, offset, k - 1) + EntryBytes(es[k - 1], Address(es, offset, k - 1))
  }

  function Padded(data: seq<Byte>): seq<Byte> { data + Zeros(Padding(|data|)) }

  function Payloads(es: seq<Entry>, k: nat): seq<Byte>
    requires k <= |es|
  {
    if k == 0 then [] else Payloads(es, k - 1) + Padded(es[k - 1].data)
  }

  function Image(es: seq<Entry>, offset: nat): seq<Byte> {
    Directory(es, offset, |es|) + Zeros(ENTRY) + Payloads(es, |es|)
  }

  /** Every address fits struct.pack's unsigned word. */
  predicate Addressable(es: seq<Entry>, offset: nat) {
    forall k :: 0 <= k < |es| ==> Address(es, offset, k) < WORD_MODULUS
  }

  // ---- Layout

  lemma {:induction false} PayloadsLength(es: seq<Entry>, k: nat)
    requires k <= |es|
    ensures |Payloads(es, k)| == Running(es, k) && Running(es, k) % 4 == 0
  {
    hide RoundUp, Padding, Zeros;
    if k > 0 {
      PayloadsLength(es, k - 1);
      RoundingAgrees(|es[k - 1].data|);
      SumAligned(Running(es, k - 1), RoundUp(|es[k - 1].data|));
    }
  }

  lemma SumAligned(a: nat, b: nat)
    requires a % 4 == 0 && b % 4 == 0
    ensures (a + b) % 4 == 0
  {}

  lemma {:induction false} PayloadsPrefix(es: seq<Entry>, j: nat, k: nat)
    requires j <= k <= |es|
    ensures Payloads(es, j) <= Payloads(es, k) && Running(es, j) <= Running(es, k)
    decreases k
  {
    hide Padded, RoundUp;
    if j < k {
      PayloadsPrefix(es, j, k - 1);
      RoundingAgrees(|es[k - 1].data|);
    }
  }

  lemma {:induction false} DirectoryPrefix(es: seq<Entry>, offset: nat, j: nat, k: nat)
    requires j <= k <= |es|
    ensures Directory(es, offset, j) <= Directory(es, offset, k)
    decreases k
  {
    hide EntryBytes, Address;
    if j < k { DirectoryPrefix(es, offset, j, k - 1); }
  }

  /** b lies at position n of s. */
  predicate At(s: seq<Byte>, n: nat, b: seq<Byte>) { n + |b| <= |s| && s[n..n + |b|] == b }

  lemma AtPrefix(h: seq<Byte>, a: seq<Byte>, b: seq<Byte>, s: seq<Byte>)
    requires h + a + b <= s
    ensures At(s, |h| + |a|, b)
  {
    var t := h + a + b;
    assert s[..|t|] == t;
    assert s[|h| + |a|..|t|] == t[|h| + |a|..];
  }

  /** Where the image starts with a header before it and anything behind it. */
  predicate Holds(whole: seq<Byte>, header: seq<Byte>, es: seq<Entry>) {
    header + Image(es, |header|) <= whole
  }

  lemma EntryAt(whole: seq<Byte>, header: seq<Byte>, es: seq<Entry>, k: nat)
    requires Holds(whole, header, es) && k < |es|
    ensures At(whole, |header| + ENTRY * k, EntryBytes(es[k], Address(es, |header|, k)))
  {
    DirectoryPrefix(es, |header|, k + 1, |es|);
    var d, b := Directory(es, |header|, k), EntryBytes(es[k], Address(es, |header|, k));
    assert Directory(es, |header|, k + 1) == d + b;
    hide Directory, EntryBytes, Address, Payloads, Zeros;
    assert header + d + b <= whole by {
      assert header + (d + b) <= whole;
      assert header + (d + b) == header + d + b;
    }
    AtPrefix(header, d, b, whole);
  }

  lemma NullAt(whole: seq<Byte>, header: seq<Byte>, es: seq<Entry>)
    requires Holds(whole, header, es)
    ensures At(whole, |header| + ENTRY * |es|, Zeros(ENTRY))
  {
    hide Directory, Payloads, Zeros, At;
    var d, z := Directory(es, |header|, |es|), Zeros(ENTRY);
    ThreeParts(header, d, z, Payloads(es, |es|), whole);
    AtPrefix(header, d, z, whole);
  }

  lemma ThreeParts(h: seq<Byte>, d: seq<Byte>, z: seq<Byte>, q: seq<Byte>, whole: seq<Byte>)
    requires h + (d + z + q) <= whole
    ensures h + d + z <= whole
  {
    assert h + (d + z + q) == (h + d + z) + q;
    Shorter(h + d + z, q, whole);
  }

  lemma Embedded(h: seq<Byte>, d: seq<Byte>, p: seq<Byte>, b: seq<Byte>, q: seq<Byte>, whole: seq<Byte>)
    requires p + b <= q && h + (d + q) <= whole
    ensures h + (d + p) + b <= whole
  {
    assert q == p + b + q[|p + b|..];
    assert h + (d + q) == h + (d + p) + b + q[|p + b|..];
  }

  lemma Shorter<X>(a: seq<X>, z: seq<X>, whole: seq<X>)
    requires a + z <= whole
    ensures a <= whole
  {}

  lemma PayloadInside(es: seq<Entry>, k: nat)
    requires k < |es|
    ensures Payloads(es, k) + es[k].data <= Payloads(es, |es|)
  {
    hide Zeros, Padding, Running, RoundUp;
    PayloadsPrefix(es, k + 1, |es|);
    var p, b := Payloads(es, k), es[k].data;
    var z := Zeros(Padding(|b|));
    assert Payloads(es, k + 1) == p + (b + z);
    hide Payloads;
    assert p + (b + z) == (p + b) + z;
    Shorter(p + b, z, Payloads(es, |es|));
  }

  /** The address that the first pass computes is where the second pass puts the payload. */
  lemma PayloadAt(whole: seq<Byte>, header: seq<Byte>, es: seq<Entry>, k: nat)
    requires Holds(whole, header, es) && k < |es|
    ensures At(whole, Address(es, |header|, k), es[k].data)
  {
    hide Directory, Payloads, Zeros, Padded, At, Running;
    PayloadInside(es, k);
    PayloadsLength(es, k);
    var d, p := Directory(es, |header|, |es|) + Zeros(ENTRY), Payloads(es, k);
    Embedded(header, d, p, es[k].data, Payloads(es, |es|), whole);
    AtPrefix(header, d + p, es[k].data, whole);
  }

  /** Payloads come after the null entry, in order, without overlap, inside the image, and aligned
      when the offset is; the image is as long as the address after the last payload says. */
  lemma LayoutAgrees(header: seq<Byte>, es: seq<Entry>, j: nat, k: nat)
    requires j < k <= |es|
    ensures |header| + |Image(es, |header|)| == Address(es, |header|, |es|)
    ensures |header| + ENTRY * (|es| + 1) <= Address(es, |header|, j)
    ensures Address(es, |header|, j) + |es[j].data| <= Address(es, |header|, k) <= |header| + |Image(es, |header|)|
    ensures |header| % 4 == 0 ==> Address(es, |header|, j) % 4 == 0
  {
    hide Payloads, Directory, Zeros, RoundUp;
    PayloadsLength(es, |es|);
    PayloadsLength(es, j);
    PayloadsPrefix(es, j + 1, k);
    PayloadsPrefix(es, k, |es|);
    RoundingAgrees(|es[j].data|);
  }

  // ---- Reading a directory

  /** One entry: identity byte, three size bytes, address word. */
  function EntrySize(s: seq<Byte>, at: nat): nat
    requires at + ENTRY <= |s|
  {
    s[at + 1] + 0x100 * s[at + 2] as int + 0x1_0000 * s[at + 3] as int
  }

  /** The chunks of the directory at `at`, up to the entry whose identity byte is zero; None if
      something lies outside s. */
  function Parse(s: seq<Byte>, at: nat): Option<seq<Chunk>>
    decreases |s| - at
  {
    if at + ENTRY > |s| then None
    else if s[at] == 0 then Some([])
    else
      var addr, size := ReadLe32(s, at + 4), EntrySize(s, at);
      if addr + size > |s| then None
      else
        var rest := Parse(s, at + ENTRY);
        if rest.None? then None else Some([Chunk(s[at], s[addr..addr + size])] + rest.value)
  }

  /** What survives of the entries from k on: the size loses all but 24 bits, and an identity byte
      of zero ends the directory. */
  function Legible(es: seq<Entry>, k: nat): seq<Chunk>
    requires k <= |es|
    decreases |es| - k
  {
    if k == |es| || OSIB(es[k]) == 0 then []
    else [Chunk(OSIB(es[k]), es[k].data[..|es[k].data| % SIZE_LIMIT])] + Legible(es, k + 1)
  }

  function Chunks(es: seq<Entry>, k: nat): (cs: seq<Chunk>)
    requires k <= |es|
    ensures |cs| == |es| - k
    decreases |es| - k
  {
    if k == |es| then [] else [Chunk(OSIB(es[k]), es[k].data)] + Chunks(es, k + 1)
  }

  lemma SizeBytes(n: nat)
    ensures n % 0x100 + 0x100 * ((n / 0x100) % 0x100) + 0x1_0000 * ((n / 0x1_0000) % 0x100) == n % SIZE_LIMIT
  {
    var a, b := n / 0x100, n / 0x1_0000;
    DivModIs(n, 0x1_0000, a / 0x100, 0x100 * (a % 0x100) + n % 0x100);
    DivModIs(n, SIZE_LIMIT, b / 0x100, 0x1_0000 * (b % 0x100) + 0x100 * (a % 0x100) + n % 0x100);
  }

  /** Reading back one packed entry. */
  lemma EntryRead(s: seq<Byte>, at: nat, e: Entry, addr: Word32)
    requires At(s, at, EntryBytes(e, addr))
    ensures s[at] == OSIB(e) && EntrySize(s, at) == |e.data| % SIZE_LIMIT && ReadLe32(s, at + 4) == addr
  {
    hide OSIB, Le32, ReadLe32;
    var b, n := EntryBytes(e, addr), |e.data|;
    var q := s[at..at + ENTRY];
    assert s[at] == q[0] && s[at + 1] == q[1] && s[at + 2] == q[2] && s[at + 3] == q[3];
    SizeBytes(n);
    assert s[at + 4..at + 8] == q[4..8] == Le32(addr);
    hide EntryBytes, At;
    ReadAt(s, at + 4, addr);
  }

  lemma ReadAt(s: seq<Byte>, at: nat, x: Word32)
    requires at + 4 <= |s| && s[at..at + 4] == Le32(x)
    ensures ReadLe32(s, at) == x
  {
    hide Le32, ReadLe32;
    assert s == s[..at] + Le32(x) + s[at + 4..];
    ReadLe32At(s[..at], x, s[at + 4..]);
  }

  lemma Front(s: seq<Byte>, n: nat, b: seq<Byte>, k: nat)
    requires At(s, n, b) && k <= |b|
    ensures n + k <= |s| && s[n..n + k] == b[..k]
  {
    assert s[n..n + k] == s[n..n + |b|][..k];
  }

  /** Wherever the image lies in the bytes read, the parser finds what is legible in it. */
  lemma {:induction false} ParseImage(whole: seq<Byte>, header: seq<Byte>, es: seq<Entry>, k: nat)
    requires Holds(whole, header, es) && k <= |es| && Addressable(es, |header|)
    ensures Parse(whole, |header| + ENTRY * k) == Some(Legible(es, k))
    decreases |es| - k
  {
    hide EntryBytes, OSIB, ReadLe32, EntrySize, Address, Image, Zeros;
    var at := |header| + ENTRY * k;
    if k == |es| {
      NullAt(whole, header, es);
      ZerosFirst(whole, at);
    } else {
      var e, addr := es[k], Address(es, |header|, k);
      EntryAt(whole, header, es, k);
      EntryRead(whole, at, e, addr);
      PayloadAt(whole, header, es, k);
      Front(whole, addr, e.data, |e.data| % SIZE_LIMIT);
      if OSIB(e) != 0 {
        ParseImage(whole, header, es, k + 1);
        assert at + ENTRY == |header| + ENTRY * (k + 1);
      }
    }
  }

  lemma ZerosFirst(s: seq<Byte>, n: nat)
    requires At(s, n, Zeros(ENTRY))
    ensures n + ENTRY <= |s| && s[n] == 0
  {
    hide Zeros;
    assert s[n] == s[n..n + ENTRY][0];
  }

  lemma {:induction false} ChunksAt(es: seq<Entry>, k: nat, i: nat)
    requires k + i < |es|
    ensures Chunks(es, k)[i] == Chunk(OSIB(es[k + i]), es[k + i].data)
    decreases i
  {
    hide OSIB;
    if i > 0 { ChunksAt(es, k + 1, i - 1); }
  }

  /** An entry that the format can express: an identity byte that does not end the directory, and
      a size of 24 bits. */
  predicate Expressible(e: Entry) { OSIB(e) != 0 && |e.data| < SIZE_LIMIT }

  lemma ConsEqual(x: Chunk, a: seq<Chunk>, y: Chunk, b: seq<Chunk>)
    ensures [x] + a == [y] + b <==> x == y && a == b
  {
    if [x] + a == [y] + b {
      assert ([x] + a)[0] == ([y] + b)[0];
      assert ([x] + a)[1..] == a && ([y] + b)[1..] == b;
    }
  }

  lemma OneLegible(e: Entry)
    ensures |e.data| % SIZE_LIMIT <= |e.data|
    ensures Expressible(e) <==> OSIB(e) != 0 && e.data[..|e.data| % SIZE_LIMIT] == e.data
  {
    hide OSIB;
    TruncatedExact(e.data);
  }

  lemma {:induction false} LegibleExact(es: seq<Entry>, k: nat)
    requires k <= |es|
    ensures Legible(es, k) == Chunks(es, k) <==> forall i :: k <= i < |es| ==> Expressible(es[i])
    decreases |es| - k
  {
    hide OSIB, Expressible;
    if k < |es| {
      LegibleExact(es, k + 1);
      OneLegible(es[k]);
      var e := es[k];
      if OSIB(e) != 0 {
        ConsEqual(Chunk(OSIB(e), e.data[..|e.data| % SIZE_LIMIT]), Legible(es, k + 1), Chunk(OSIB(e), e.data),
          Chunks(es, k + 1));
      }
    }
  }

  lemma TruncatedExact(data: seq<Byte>)
    ensures |data| % SIZE_LIMIT <= |data|
    ensures data[..|data| % SIZE_LIMIT] == data <==> |data| < SIZE_LIMIT
  {
    if |data| < SIZE_LIMIT { assert data[..|data|] == data; }
  }

  /** Round trip: read back from header, directory and whatever padding follows, the chunks are the
      entries' types and payloads in order if and only if every identity byte is non-zero and
      every size fits 24 bits. */
  lemma RoundTripExact(header: seq<Byte>, es: seq<Entry>, pad: seq<Byte>)
    requires Addressable(es, |header|)
    ensures Parse(header + Image(es, |header|) + pad, |header|) == Some(Chunks(es, 0))
      <==> forall i :: 0 <= i < |es| ==> Expressible(es[i])
  {
    hide Image, Expressible, Addressable, Chunks, Legible, Parse;
    var whole := header + Image(es, |header|) + pad;
    ParseImage(whole, header, es, 0);
    LegibleExact(es, 0);
  }
}
