/** From mk_chunk_dir.py's modules to RISC OS: the second chunk directory, walked purely through the
    loader's read_byte and the page switches behind it. */
module RomPipeline {
  import opened Bits
  import opened Words
  import opened ChunkFormat
  import opened Wrappers
  import opened ChunkDirectory
  import P = PagedRom
  import RomAccess

  /** Timeouts and hasty reads are never undone, and the second kind needs one of the first. */
  predicate Onward(s: P.Paging, r: P.Paging) {
    (s.timedOut ==> r.timedOut) && (s.hasty ==> r.hasty) && (r.hasty && !s.hasty ==> r.timedOut)
  }

  /** No poll times out that had not before, if the podule answers in time. */
  ghost predicate Punctual(others: nat -> nat, s: P.Paging, r: P.Paging) {
    RomAccess.Prompt(others) && !s.timedOut ==> !r.timedOut
  }

  /** n bytes from addr on, one read_byte each; None on the loader's errors. */
  method ReadBlock(loader: RomAccess.Loader, addr: nat, n: nat) returns (r: Option<seq<Byte>>)
    requires loader.Valid()
    modifies loader, loader.bus
    ensures loader.Valid() && loader.bus.s.rom == old(loader.bus.s.rom)
    ensures Onward(old(loader.bus.s), loader.bus.s) && Punctual(loader.bus.others, old(loader.bus.s), loader.bus.s)
    ensures var rom := loader.bus.s.rom;
      addr + n <= |rom| <= P.MAX_ADDRESS ==>
        && (!loader.bus.s.hasty && r.Some? ==> r.value == rom[addr..addr + n])
        && (!loader.bus.s.timedOut ==> r.Some?)
    ensures r.Some? ==> |r.value| == n
  {
    hide P.Inv, P.Run, RomAccess.Steps, RomAccess.Prompt, P.Needed, P.PageIndex, P.Flag;
    var got: seq<Byte> := [];
    for i := 0 to n
      invariant loader.Valid() && loader.bus.s.rom == old(loader.bus.s.rom)
      invariant Onward(old(loader.bus.s), loader.bus.s)
      invariant Punctual(loader.bus.others, old(loader.bus.s), loader.bus.s)
      invariant |got| == i
      invariant var rom := loader.bus.s.rom;
        !loader.bus.s.hasty && addr + n <= |rom| <= P.MAX_ADDRESS ==> got == rom[addr..addr + i]
    {
      if addr + i >= P.MAX_ADDRESS {
        return None;
      }
      var answer := loader.ReadByte(addr + i);
      if !answer.Value? {
        return None;
      }
      got := got + [answer.b];
    }
    r := Some(got);
  }

  lemma EntryFields(s: seq<Byte>, at: nat, e: seq<Byte>)
    requires at + ENTRY <= |s| && e == s[at..at + ENTRY]
    ensures e[0] == s[at] && EntrySize(e, 0) == EntrySize(s, at) && ReadLe32(e, 4) == ReadLe32(s, at + 4)
  {}

  /** What is still to be read completes what has been read. */
  ghost predicate Underway(rom: seq<Byte>, at: nat, chunks: seq<Chunk>) {
    Parse(rom, 0).Some? ==> Parse(rom, at).Some? && Parse(rom, 0).value == chunks + Parse(rom, at).value
  }

  lemma ParseStep(s: seq<Byte>, at: nat)
    requires Parse(s, at).Some?
    ensures at + ENTRY <= |s|
    ensures s[at] == 0 ==> Parse(s, at) == Some([])
    ensures s[at] != 0 ==>
      var addr, size := ReadLe32(s, at + 4), EntrySize(s, at);
      && addr + size <= |s| && Parse(s, at + ENTRY).Some?
      && Parse(s, at).value == [Chunk(s[at], s[addr..addr + size])] + Parse(s, at + ENTRY).value
  {
    hide ReadLe32, EntrySize;
  }

  lemma NextChunk(rom: seq<Byte>, at: nat, chunks: seq<Chunk>)
    requires Underway(rom, at, chunks) && Parse(rom, 0).Some?
    ensures at + ENTRY <= |rom|
    ensures rom[at] == 0 ==> Parse(rom, 0) == Some(chunks)
    ensures rom[at] != 0 ==>
      var addr, size := ReadLe32(rom, at + 4), EntrySize(rom, at);
      addr + size <= |rom| && Underway(rom, at + ENTRY, chunks + [Chunk(rom[at], rom[addr..addr + size])])
  {
    hide ReadLe32, EntrySize, Parse;
    ParseStep(rom, at);
    if rom[at] == 0 {
      assert chunks + [] == chunks;
    } else {
      var addr, size := ReadLe32(rom, at + 4), EntrySize(rom, at);
      var c := [Chunk(rom[at], rom[addr..addr + size])];
      assert chunks + (c + Parse(rom, at + ENTRY).value) == (chunks + c) + Parse(rom, at + ENTRY).value;
    }
  }

  /** The operating system's walk of the directory at the start of the loader's address space. */
  method ReadChunks(loader: RomAccess.Loader) returns (r: Option<seq<Chunk>>)
    requires loader.Valid()
    modifies loader, loader.bus
    ensures loader.Valid() && loader.bus.s.rom == old(loader.bus.s.rom)
    ensures Punctual(loader.bus.others, old(loader.bus.s), loader.bus.s)
    ensures var rom := loader.bus.s.rom;
      |rom| <= P.MAX_ADDRESS && Parse(rom, 0).Some? ==>
        && (!loader.bus.s.hasty && r.Some? ==> r == Parse(rom, 0))
        && (!loader.bus.s.hasty && !loader.bus.s.timedOut ==> r.Some?)
  {
    hide P.Inv, P.Run, Parse, ReadLe32, EntrySize, RomAccess.Prompt;
    var at, chunks := 0, [];
    ghost var rom := loader.bus.s.rom;
    assert Parse(rom, 0).Some? ==> [] + Parse(rom, 0).value == Parse(rom, 0).value;
    while at < P.MAX_ADDRESS
      invariant loader.Valid() && loader.bus.s.rom == rom
      invariant Punctual(loader.bus.others, old(loader.bus.s), loader.bus.s)
      invariant !loader.bus.s.hasty && |rom| <= P.MAX_ADDRESS ==> Underway(rom, at, chunks)
    {
      ghost var sound := |rom| <= P.MAX_ADDRESS && Parse(rom, 0).Some?;
      if !loader.bus.s.hasty && sound { NextChunk(rom, at, chunks); }
      var entry := ReadBlock(loader, at, ENTRY);
      if entry.None? { return None; }
      var e := entry.value;
      if !loader.bus.s.hasty && sound { EntryFields(rom, at, e); }
      if e[0] == 0 { return Some(chunks); }
      var data := ReadBlock(loader, ReadLe32(e, 4), EntrySize(e, 0));
      if data.None? { return None; }
      chunks := chunks + [Chunk(e[0], data.value)];
      at := at + ENTRY;
    }
    r := None;
    if !loader.bus.s.hasty && |rom| <= P.MAX_ADDRESS && Parse(rom, 0).Some? { NextChunk(rom, at, chunks); }
  }

  const MODULE_OSIB: Byte := 0x81

  /** The chunks are the modules, in order, each marked as a relocatable module. */
  predicate AreModules(cs: seq<Chunk>, modules: seq<seq<Byte>>) {
    |cs| == |modules| && forall i :: 0 <= i < |cs| ==> cs[i] == Chunk(MODULE_OSIB, modules[i])
  }

  lemma {:induction false} ModuleChunks(modules: seq<seq<Byte>>, k: nat)
    requires k <= |modules|
    ensures AreModules(Chunks(ModuleEntries(modules), k), modules[k..])
    decreases |modules| - k
  {
    hide OSIB;
    if k < |modules| {
      OSIBIs(ModuleEntries(modules)[k]);
      ModuleChunks(modules, k + 1);
      assert modules[k..] == [modules[k]] + modules[k + 1..];
    }
  }

  lemma ModulesAddressable(modules: seq<seq<Byte>>)
    requires |Image(ModuleEntries(modules), 0)| <= P.MAX_ADDRESS
    ensures Addressable(ModuleEntries(modules), 0)
  {
    hide Image, Address;
    var es := ModuleEntries(modules);
    forall k | 0 <= k < |es|
      ensures Address(es, 0, k) < WORD_MODULUS
    {
      LayoutAgrees([], es, k, k + 1);
    }
  }

  lemma ModulesExpressible(modules: seq<seq<Byte>>)
    ensures (forall i :: 0 <= i < |modules| ==> Expressible(ModuleEntries(modules)[i]))
      <==> forall i :: 0 <= i < |modules| ==> |modules[i]| < SIZE_LIMIT
  {
    forall i | 0 <= i < |modules|
      ensures Expressible(ModuleEntries(modules)[i]) <==> |modules[i]| < SIZE_LIMIT
    {
      OSIBIs(ModuleEntries(modules)[i]);
      hide OSIB;
    }
  }

  lemma SameModules(cs: seq<Chunk>, ds: seq<Chunk>, modules: seq<seq<Byte>>)
    requires AreModules(ds, modules)
    ensures AreModules(cs, modules) <==> cs == ds
  {}

  lemma InTime(bus: RomAccess.Bus)
    requires bus.Valid() && !bus.s.timedOut
    ensures !bus.s.hasty
  {
    hide P.Run, P.Synced;
  }

  /** For every list of modules whose image fits the 32 MB that the loader can address, whatever
      padding follows it and however the bus accesses interleave: a walk through read_byte that comes
      to its end, each call having found the handshake flag down, yields exactly the byte strings
      given to addRModule, in order, if and only if each of them is shorter than 16 MB, the most that
      the directory's 24-bit size can say. If no poll times out it does come to its end, and none does
      if the podule answers in time. */
  method LoadModules(loader: RomAccess.Loader, ghost modules: seq<seq<Byte>>) returns (r: Option<seq<Chunk>>)
    requires loader.Valid()
    requires Image(ModuleEntries(modules), 0) <= loader.bus.s.rom && |loader.bus.s.rom| <= P.MAX_ADDRESS
    modifies loader, loader.bus
    ensures loader.Valid() && Punctual(loader.bus.others, old(loader.bus.s), loader.bus.s)
    ensures !loader.bus.s.hasty && r.Some? ==>
      (AreModules(r.value, modules) <==> forall i :: 0 <= i < |modules| ==> |modules[i]| < SIZE_LIMIT)
    ensures !loader.bus.s.timedOut ==> r.Some? && !loader.bus.s.hasty
  {
    hide P.Inv, P.Run, Parse, Image, AreModules, Expressible, Addressable, Chunks, Legible, RomAccess.Prompt;
    ghost var rom, es := loader.bus.s.rom, ModuleEntries(modules);
    ModulesAddressable(modules);
    assert [] + Image(es, 0) == Image(es, 0);
    ParseImage(rom, [], es, 0);
    r := ReadChunks(loader);
    if !loader.bus.s.timedOut { InTime(loader.bus); }
    if !loader.bus.s.hasty && r.Some? {
      assert r == Some(Legible(es, 0));
      LegibleExact(es, 0);
      ModuleChunks(modules, 0);
      assert modules[0..] == modules;
      SameModules(r.value, Chunks(es, 0), modules);
      ModulesExpressible(modules);
    }
  }

  /** The whole way: the script makes the image, the podule serves it with `others` saying how many of
      its steps fit between two accesses of the loader, and the walk gets the modules back, with no
      timeout if the podule answers in time. */
  method RoundTrip(modules: seq<seq<Byte>>, round: nat, slack: seq<Byte>, window: seq<Byte>, others: nat -> nat)
    returns (r: Option<seq<Chunk>>, timedOut: bool)
    requires |slack| == P.PAGE == |window| && |Image(ModuleEntries(modules), 0)| + round <= P.MAX_ADDRESS
    ensures RomAccess.Prompt(others) ==> !timedOut
    ensures !timedOut ==>
      (r.Some? && AreModules(r.value, modules) <==> forall i :: 0 <= i < |modules| ==> |modules[i]| < SIZE_LIMIT)
  {
    hide P.Inv, P.Run, Parse, Image, AreModules, Expressible, Addressable, Chunks, P.Flag, RomAccess.Prompt;
    var cd := Fill(0, NO_TEXTS, None, modules);
    ModulesAddressable(modules);
    assert cd.Values() == ModuleEntries(modules);
    assert [] + Image(ModuleEntries(modules), 0) == Image(ModuleEntries(modules), 0);
    var rom := Output(cd, [], round);
    var bus := new RomAccess.Bus(
      P.Paging(rom.value, slack, window, 0, 0, 0, P.Idle, P.NO_PAGE, P.Resting, [], false, false, false, false),
      others);
    var loader := new RomAccess.Loader(bus);
    r := LoadModules(loader, modules);
    timedOut := bus.s.timedOut;
  }
}
