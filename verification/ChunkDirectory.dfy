/** tools/mk_chunk_dir.py: the two classes, whose lists and attributes change in place, and the
    header and padding that the script puts round what they render. */
module ChunkDirectory {
  import opened Bits
  import opened Words
  import opened ChunkFormat
  import opened Wrappers

  const OS_RISCOS: nat := 8
  const DATA_RISCOS_LOADER: nat := 0
  const DATA_RISCOS_MODULE: nat := 1
  const OS_DD: nat := 15
  const DATA_DD_SERIAL: nat := 1
  const DATA_DD_MANU_DATE: nat := 2
  const DATA_DD_MOD_STATUS: nat := 3
  const DATA_DD_MANU_PLACE: nat := 4
  const DATA_DD_DESCR: nat := 5
  const DATA_DD_PART_NO: nat := 6

  /** `a[i:i+n] = b`, the slice being as long as b. */
  method Assign(a: array<Byte>, i: nat, b: seq<Byte>)
    requires i + |b| <= a.Length
    modifies a
    ensures a[..i] == old(a[..i]) && a[i..i + |b|] == b && a[i + |b|..] == old(a[i + |b|..])
  {
    forall k | 0 <= k < |b| {
      a[i + k] := b[k];
    }
  }

  lemma FirstAddress(es: seq<Entry>, offset: nat)
    ensures Address(es, offset, 0) == offset + (|es| + 1) * ENTRY
  {}

  lemma NextAddress(es: seq<Entry>, offset: nat, k: nat)
    requires k < |es|
    ensures Address(es, offset, k + 1) == Address(es, offset, k) + RoundUp(|es[k].data|)
  {
    hide RoundUp;
  }

  lemma NoneWritten(es: seq<Entry>, offset: nat)
    ensures Directory(es, offset, 0) == [] && Payloads(es, 0) == []
  {}

  lemma OneWritten(es: seq<Entry>, offset: nat, k: nat)
    requires k < |es|
    ensures Directory(es, offset, k + 1) == Directory(es, offset, k) + EntryBytes(es[k], Address(es, offset, k))
    ensures Payloads(es, k + 1) == Payloads(es, k) + Padded(es[k].data)
  {
    hide EntryBytes, Padded, Address;
  }

  class CDEntry {
    var os: nat
    var d: nat
    var addr: nat
    var data: seq<Byte>

    constructor (o: nat, d: nat, dbytes: seq<Byte>)
      ensures Value() == Entry(o, d, dbytes) && addr == 0
    {
      os, this.d, addr, data := o, d, 0, dbytes;
    }

    ghost function Value(): Entry
      reads `os, `d, `data
    {
      Entry(os, d, data)
    }

    /** getOSIB. */
    method GetOSIB() returns (b: Byte)
      ensures b == OSIB(Value())
    {
      b := OSIB(Entry(os, d, data));
    }
  }

  /** The entries that addLoader and addRModule make. */
  function LoaderEntry(data: seq<Byte>): Entry { Entry(OS_RISCOS, DATA_RISCOS_LOADER, data) }

  function ModuleEntry(data: seq<Byte>): Entry { Entry(OS_RISCOS, DATA_RISCOS_MODULE, data) }

  function ModuleEntries(modules: seq<seq<Byte>>): (es: seq<Entry>)
    ensures |es| == |modules| && forall i :: 0 <= i < |es| ==> es[i] == ModuleEntry(modules[i])
  {
    seq(|modules|, i requires 0 <= i < |modules| => ModuleEntry(modules[i]))
  }

  /** The entry that _addEntryZ makes, ended by a zero; an option left out or empty makes none. */
  function TextEntry(d: nat, text: seq<Byte>): seq<Entry> {
    if text == [] then [] else [Entry(OS_DD, d, text + [0])]
  }

  /** The script's text options. */
  datatype Texts = Texts(descr: seq<Byte>, date: seq<Byte>, serial: seq<Byte>, status: seq<Byte>, place: seq<Byte>,
                         part: seq<Byte>)

  const NO_TEXTS: Texts := Texts([], [], [], [], [], [])

  function FirstTexts(t: Texts): seq<Entry> {
    TextEntry(DATA_DD_DESCR, t.descr) + TextEntry(DATA_DD_MANU_DATE, t.date) + TextEntry(DATA_DD_SERIAL, t.serial)
  }

  function LastTexts(t: Texts): seq<Entry> {
    TextEntry(DATA_DD_MOD_STATUS, t.status) + TextEntry(DATA_DD_MANU_PLACE, t.place)
    + TextEntry(DATA_DD_PART_NO, t.part)
  }

  /** In the script's order. */
  function TextEntries(t: Texts): seq<Entry> { FirstTexts(t) + LastTexts(t) }

  class ChunkDirectory {
    var entries: seq<CDEntry>
    const offset: nat

    constructor (offset: nat)
      ensures Valid() && Values() == [] && this.offset == offset && entries == []
    {
      this.offset, entries := offset, [];
    }

    /** Every entry is an object of its own: setting one address changes no other. */
    ghost predicate Valid()
      reads `entries
    {
      forall i, j :: 0 <= i < j < |entries| ==> entries[i] != entries[j]
    }

    ghost function Values(): (es: seq<Entry>)
      reads this, entries
      ensures |es| == |entries| && forall i :: 0 <= i < |es| ==> es[i] == entries[i].Value()
    {
      seq(|entries|, i requires 0 <= i < |entries| reads this, entries => entries[i].Value())
    }

    /** _addEntry. */
    method AddEntry(ostype: nat, dataType: nat, data: seq<Byte>)
      requires Valid()
      modifies `entries
      ensures Valid() && Values() == old(Values()) + [Entry(ostype, dataType, data)]
      ensures forall e :: e in entries && e !in old(entries) ==> fresh(e)
    {
      var e := new CDEntry(ostype, dataType, data);
      entries := entries + [e];
    }

    /** addRModule. */
    method AddRModule(data: seq<Byte>)
      requires Valid()
      modifies `entries
      ensures Valid() && Values() == old(Values()) + [ModuleEntry(data)]
      ensures forall e :: e in entries && e !in old(entries) ==> fresh(e)
    {
      AddEntry(OS_RISCOS, DATA_RISCOS_MODULE, data);
    }

    /** addLoader. */
    method AddLoader(data: seq<Byte>)
      requires Valid()
      modifies `entries
      ensures Valid() && Values() == old(Values()) + [LoaderEntry(data)]
      ensures forall e :: e in entries && e !in old(entries) ==> fresh(e)
    {
      AddEntry(OS_RISCOS, DATA_RISCOS_LOADER, data);
    }

    /** The script's `if text: cd.addText...(text)`. */
    method AddText(d: nat, text: seq<Byte>)
      requires Valid()
      modifies `entries
      ensures Valid() && Values() == old(Values()) + TextEntry(d, text)
      ensures forall e :: e in entries && e !in old(entries) ==> fresh(e)
    {
      if text != [] {
        AddEntry(OS_DD, d, text + [0]);
      }
    }

    /** The first three and the last three of the script's text options. */
    method AddFirstTexts(t: Texts)
      requires Valid()
      modifies `entries
      ensures Valid() && Values() == old(Values()) + FirstTexts(t)
      ensures forall e :: e in entries && e !in old(entries) ==> fresh(e)
    {
      hide TextEntry;
      AddText(DATA_DD_DESCR, t.descr);
      AddText(DATA_DD_MANU_DATE, t.date);
      AddText(DATA_DD_SERIAL, t.serial);
    }

    method AddLastTexts(t: Texts)
      requires Valid()
      modifies `entries
      ensures Valid() && Values() == old(Values()) + LastTexts(t)
      ensures forall e :: e in entries && e !in old(entries) ==> fresh(e)
    {
      hide TextEntry;
      AddText(DATA_DD_MOD_STATUS, t.status);
      AddText(DATA_DD_MANU_PLACE, t.place);
      AddText(DATA_DD_PART_NO, t.part);
    }

    method AddTexts(t: Texts)
      requires Valid()
      modifies `entries
      ensures Valid() && Values() == old(Values()) + TextEntries(t)
      ensures forall e :: e in entries && e !in old(entries) ==> fresh(e)
    {
      hide FirstTexts, LastTexts;
      AddFirstTexts(t);
      AddLastTexts(t);
    }

    /** calculate. */
    method Calculate()
      requires Valid()
      modifies set e | e in entries
      ensures Valid() && Values() == old(Values())
      ensures forall k :: 0 <= k < |entries| ==> entries[k].addr == Address(Values(), offset, k)
    {
      hide RoundUp, Address;
      ghost var vs := Values();
      var addr := offset + (|entries| + 1) * ENTRY;
      FirstAddress(vs, offset);
      for k := 0 to |entries|
        invariant addr == Address(vs, offset, k)
        invariant forall i :: 0 <= i < |entries| ==> entries[i].Value() == vs[i]
        invariant forall i :: 0 <= i < k ==> entries[i].addr == Address(vs, offset, i)
      {
        var e := entries[k];
        NextAddress(vs, offset, k);
        e.addr := addr;
        addr := addr + RoundUp(|e.data|);
      }
      assert Values() == vs;
    }

    /** The pack and slice assignment of one entry. */
    static method PackEntry(chdir: array<Byte>, i: nat, e: CDEntry)
      requires i + ENTRY <= chdir.Length && e.addr < WORD_MODULUS
      modifies chdir
      ensures chdir[..i + ENTRY] == old(chdir[..i]) + EntryBytes(e.Value(), e.addr)
    {
      hide OSIB, Le32;
      var s := |e.data|;
      var osib := e.GetOSIB();
      Assign(chdir, i, [osib, s % 0x100, (s / 0x100) % 0x100, (s / 0x1_0000) % 0x100] + Le32(e.addr));
      assert chdir[..i + ENTRY] == chdir[..i] + chdir[i..i + ENTRY];
    }

    /** render after its call of calculate: the second pass. */
    method Write() returns (r: Option<seq<Byte>>)
      requires forall k :: 0 <= k < |entries| ==> entries[k].addr == Address(Values(), offset, k)
      ensures r == if Addressable(Values(), offset) then Some(Image(Values(), offset)) else None
    {
      hide Address, Padded, EntryBytes, OSIB, Directory, Payloads, Zeros;
      ghost var vs := Values();
      NoneWritten(vs, offset);
      var chdir := new Byte[(|entries| + 1) * ENTRY](_ => 0);
      var payloads: seq<Byte> := [];
      var i := 0;
      for k := 0 to |entries|
        invariant i == ENTRY * k
        invariant chdir[..i] == Directory(vs, offset, k) && payloads == Payloads(vs, k)
        invariant forall j :: 0 <= j < k ==> Address(vs, offset, j) < WORD_MODULUS
      {
        var e := entries[k];
        assert e.Value() == vs[k] && e.addr == Address(vs, offset, k);
        if e.addr >= WORD_MODULUS {
          return None;
        }
        OneWritten(vs, offset, k);
        PackEntry(chdir, i, e);
        payloads := payloads + Padded(e.data);
        i := i + ENTRY;
      }
      Assign(chdir, i, Zeros(ENTRY));
      assert chdir[..] == chdir[..i] + chdir[i..i + ENTRY];
      r := Some(chdir[..] + payloads);
    }

    /** render; None where struct.pack raises its error. */
    method Render() returns (r: Option<seq<Byte>>)
      requires Valid()
      modifies set e | e in entries
      ensures Valid() && Values() == old(Values())
      ensures r == if Addressable(Values(), offset) then Some(Image(Values(), offset)) else None
    {
      Calculate();
      r := Write();
    }
  }

  /** The 16 bytes of the extended podule header, as the script fills them in; each assignment of a
      value that is no byte raises an error. */
  function Header(product: nat, manufacturer: nat): Option<seq<Byte>> {
    if product >= 0x1_0000 || manufacturer >= 0x1_0000 then None
    else Some([0, 3, 0, product % 0x100, product / 0x100, manufacturer % 0x100, manufacturer / 0x100, 0,
               0, 0, 0, 0, 1, 0, 0, 0])
  }

  /** A header that is written says that a chunk directory follows it (bit 0) and that it holds interrupt
      pointers (bit 1), carries both numbers, has the interrupt flag in bit 0 of byte 0 and nothing
      else set, and leaves the directory aligned. */
  lemma HeaderReadsBack(product: nat, manufacturer: nat)
    ensures Header(product, manufacturer).Some? <==> product < 0x1_0000 && manufacturer < 0x1_0000
    ensures Header(product, manufacturer).Some? ==>
      var h := Header(product, manufacturer).value;
      && |h| == 16 && And(h[1], 1) == 1 && And(h[1], 2) == 2 && h[1] < 4
      && h[3] as int + 0x100 * h[4] as int == product && h[5] as int + 0x100 * h[6] as int == manufacturer
      && h[12] == 1
      && forall i :: 0 <= i < 16 && i !in {1, 3, 4, 5, 6, 12} ==> h[i] == 0
  {
    assert And(3, 1) == 1 && And(3, 2) == 2;
  }

  /** The `-r` option: how much the output is padded. */
  function FinalPadding(round: nat, len: nat): nat
    requires round > 0
  {
    (round - len % round) % round
  }

  lemma FinalPaddingIs(round: nat, len: nat)
    requires round > 0
    ensures FinalPadding(round, len) < round && (len + FinalPadding(round, len)) % round == 0
  {
    var q, m := len / round, len % round;
    DivModOf(len, round);
    if m == 0 {
      DivModIs(round, round, 1, 0);
      assert len + 0 == len;
    } else {
      DivModIs(round - m, round, 0, round - m);
      assert round * (q + 1) == round * q + round;
      DivModIs(len + (round - m), round, q + 1, 0);
    }
  }

  /** The directory that the script fills: the texts given, the loader, if one is given, then the modules. */
  function Contents(texts: Texts, loader: Option<seq<Byte>>, modules: seq<seq<Byte>>): seq<Entry> {
    TextEntries(texts) + LoaderEntries(loader) + ModuleEntries(modules)
  }

  function LoaderEntries(loader: Option<seq<Byte>>): seq<Entry> {
    if loader.Some? then [LoaderEntry(loader.value)] else []
  }

  lemma OneModuleMore(modules: seq<seq<Byte>>, i: nat)
    requires i < |modules|
    ensures ModuleEntries(modules[..i + 1]) == ModuleEntries(modules[..i]) + [ModuleEntry(modules[i])]
  {
    assert modules[..i + 1] == modules[..i] + [modules[i]];
  }

  /** The script's middle part. */
  method Fill(offset: nat, texts: Texts, loader: Option<seq<Byte>>, modules: seq<seq<Byte>>)
    returns (cd: ChunkDirectory)
    ensures cd.Valid() && cd.Values() == Contents(texts, loader, modules) && cd.offset == offset
    ensures fresh(cd) && fresh(set e | e in cd.entries)
  {
    hide TextEntries, ModuleEntries;
    cd := new ChunkDirectory(offset);
    cd.AddTexts(texts);
    if loader.Some? {
      cd.AddLoader(loader.value);
    }
    assert cd.Values() == [] + TextEntries(texts) + LoaderEntries(loader);
    AddModules(cd, modules);
  }

  /** The loop over the modules' names. */
  method AddModules(cd: ChunkDirectory, modules: seq<seq<Byte>>)
    requires cd.Valid()
    modifies cd`entries
    ensures cd.Valid() && cd.Values() == old(cd.Values()) + ModuleEntries(modules)
    ensures forall e :: e in cd.entries && e !in old(cd.entries) ==> fresh(e)
  {
    assert ModuleEntries(modules[..0]) == [];
    hide ModuleEntries;
    for i := 0 to |modules|
      invariant cd.Valid() && cd.Values() == old(cd.Values()) + ModuleEntries(modules[..i])
      invariant forall e :: e in cd.entries && e !in old(cd.entries) ==> fresh(e)
    {
      OneModuleMore(modules, i);
      cd.AddRModule(modules[i]);
    }
    assert modules[..|modules|] == modules;
  }

  // ---- What a reader finds in it

  function TextChunk(id: Byte, text: seq<Byte>): seq<Chunk> { if text == [] then [] else [Chunk(id, text + [0])] }

  /** By the numbers that podule software knows: description, date, serial number, modification status,
      place and part number, then the loader, then relocatable modules. */
  function Announced(t: Texts, loader: Option<seq<Byte>>, modules: seq<seq<Byte>>): seq<Chunk> {
    TextChunks(t) + LoaderChunk(loader) + Modules(modules)
  }

  function LoaderChunk(loader: Option<seq<Byte>>): seq<Chunk> {
    if loader.Some? then [Chunk(0x80, loader.value)] else []
  }

  function TextChunks(t: Texts): seq<Chunk> {
    TextChunk(0xf5, t.descr) + TextChunk(0xf2, t.date) + TextChunk(0xf1, t.serial) + TextChunk(0xf3, t.status)
    + TextChunk(0xf4, t.place) + TextChunk(0xf6, t.part)
  }

  function Modules(modules: seq<seq<Byte>>): (cs: seq<Chunk>)
    ensures |cs| == |modules| && forall i :: 0 <= i < |cs| ==> cs[i] == Chunk(0x81, modules[i])
  {
    seq(|modules|, i requires 0 <= i < |modules| => Chunk(0x81, modules[i]))
  }

  /** Chunks of entries, by position. */
  predicate Reads(cs: seq<Chunk>, es: seq<Entry>) {
    |cs| == |es| && forall i :: 0 <= i < |es| ==> cs[i] == Chunk(OSIB(es[i]), es[i].data)
  }

  lemma TextReads(d: nat, text: seq<Byte>)
    requires d < 16
    ensures Reads(TextChunk(0xf0 + d, text), TextEntry(d, text))
  {
    OSIBIs(Entry(OS_DD, d, text + [0]));
    hide OSIB;
  }

  lemma BothRead(cs: seq<Chunk>, es: seq<Entry>, ds: seq<Chunk>, fs: seq<Entry>)
    requires Reads(cs, es) && Reads(ds, fs)
    ensures Reads(cs + ds, es + fs)
  {
    hide OSIB;
  }

  lemma TextsRead(t: Texts)
    ensures Reads(TextChunks(t), TextEntries(t))
  {
    TextReads(5, t.descr);
    TextReads(2, t.date);
    TextReads(1, t.serial);
    TextReads(3, t.status);
    TextReads(4, t.place);
    TextReads(6, t.part);
    hide Reads, TextEntry, TextChunk;
    var c, e := TextChunk(0xf5, t.descr), TextEntry(5, t.descr);
    BothRead(c, e, TextChunk(0xf2, t.date), TextEntry(2, t.date));
    c, e := c + TextChunk(0xf2, t.date), e + TextEntry(2, t.date);
    BothRead(c, e, TextChunk(0xf1, t.serial), TextEntry(1, t.serial));
    c, e := c + TextChunk(0xf1, t.serial), e + TextEntry(1, t.serial);
    BothRead(c, e, TextChunk(0xf3, t.status), TextEntry(3, t.status));
    c, e := c + TextChunk(0xf3, t.status), e + TextEntry(3, t.status);
    BothRead(c, e, TextChunk(0xf4, t.place), TextEntry(4, t.place));
    c, e := c + TextChunk(0xf4, t.place), e + TextEntry(4, t.place);
    BothRead(c, e, TextChunk(0xf6, t.part), TextEntry(6, t.part));
    c, e := c + TextChunk(0xf6, t.part), e + TextEntry(6, t.part);
    assert TextEntries(t) == e;
  }

  lemma ModulesRead(modules: seq<seq<Byte>>)
    ensures Reads(Modules(modules), ModuleEntries(modules))
  {
    hide OSIB, Modules, ModuleEntries;
    forall i | 0 <= i < |modules| ensures OSIB(ModuleEntries(modules)[i]) == 0x81 {
      OSIBIs(ModuleEntry(modules[i]));
    }
  }

  lemma ContentsRead(t: Texts, loader: Option<seq<Byte>>, modules: seq<seq<Byte>>)
    ensures Reads(Announced(t, loader, modules), Contents(t, loader, modules))
  {
    hide Reads, TextEntries, TextChunks, LoaderChunk, Modules, ModuleEntries, LoaderEntries;
    TextsRead(t);
    LoaderReads(loader);
    ModulesRead(modules);
    BothRead(TextChunks(t), TextEntries(t), LoaderChunk(loader), LoaderEntries(loader));
    BothRead(TextChunks(t) + LoaderChunk(loader), TextEntries(t) + LoaderEntries(loader), Modules(modules),
      ModuleEntries(modules));
  }

  lemma LoaderReads(loader: Option<seq<Byte>>)
    ensures Reads(LoaderChunk(loader), LoaderEntries(loader))
  {
    hide OSIB;
    if loader.Some? { OSIBIs(LoaderEntry(loader.value)); }
  }

  /** Every identity byte announced is non-zero. */
  lemma AnnouncedSound(t: Texts, loader: Option<seq<Byte>>, modules: seq<seq<Byte>>)
    ensures var cs := Announced(t, loader, modules);
      forall i :: 0 <= i < |cs| ==> cs[i].osib != 0
  {
    hide Modules;
  }

  /** What is announced is what the directory's entries amount to, and they can be expressed exactly if
      each is shorter than 16 MB. */
  lemma ContentsAnnounced(t: Texts, loader: Option<seq<Byte>>, modules: seq<seq<Byte>>)
    ensures var es, cs := Contents(t, loader, modules), Announced(t, loader, modules);
      && Chunks(es, 0) == cs
      && ((forall i :: 0 <= i < |es| ==> Expressible(es[i]))
          <==> forall i :: 0 <= i < |cs| ==> |cs[i].data| < 0x100_0000)
  {
    ContentsRead(t, loader, modules);
    AnnouncedSound(t, loader, modules);
    hide OSIB, Contents, Announced, Chunks;
    var es, cs := Contents(t, loader, modules), Announced(t, loader, modules);
    forall i | 0 <= i < |es| ensures Chunks(es, 0)[i] == cs[i] && (Expressible(es[i]) <==> |cs[i].data| < 0x100_0000) {
      ChunksAt(es, 0, i);
    }
  }

  /** The script from the filled directory to the output file's bytes. */
  method Output(cd: ChunkDirectory, header: seq<Byte>, round: nat) returns (r: Option<seq<Byte>>)
    requires cd.Valid() && cd.offset == |header|
    modifies set e | e in cd.entries
    ensures cd.Values() == old(cd.Values())
    ensures r.None? <==> !Addressable(cd.Values(), |header|)
    ensures r.Some? && round > 0 ==> |r.value| % round == 0
    ensures r.Some? ==>
      var body := header + Image(cd.Values(), |header|);
      && body <= r.value && |r.value| < |body| + (if round > 0 then round else 1)
      && r.value[|body|..] == Zeros(|r.value| - |body|)
    ensures r.Some? ==>
      var es := cd.Values();
      Parse(r.value, |header|) == Some(Chunks(es, 0)) <==> forall i :: 0 <= i < |es| ==> Expressible(es[i])
  {
    hide Image, Addressable, Expressible, Parse, Chunks;
    var body := cd.Render();
    if body.None? {
      return None;
    }
    var output := header + body.value;
    var pad := if round > 0 then FinalPadding(round, |output|) else 0;
    if round > 0 { FinalPaddingIs(round, |output|); }
    RoundTripExact(header, cd.Values(), Zeros(pad));
    r := Some(output + Zeros(pad));
  }

  /** The whole script: what its output reads back as, by the numbers that podule software knows. */
  method MakeChunkDirectory(header: seq<Byte>, texts: Texts, loader: Option<seq<Byte>>, modules: seq<seq<Byte>>,
                            round: nat)
    returns (r: Option<seq<Byte>>)
    ensures r.None? <==> !Addressable(Contents(texts, loader, modules), |header|)
    ensures r.Some? ==>
      var cs := Announced(texts, loader, modules);
      && header <= r.value
      && (Parse(r.value, |header|) == Some(cs) <==> forall i :: 0 <= i < |cs| ==> |cs[i].data| < 0x100_0000)
  {
    hide Image, Addressable, Expressible, Parse, Chunks, Contents, Announced;
    ContentsAnnounced(texts, loader, modules);
    var cd := Fill(|header|, texts, loader, modules);
    r := Output(cd, header, round);
  }
}
