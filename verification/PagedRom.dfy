/** The paged ROM window: read_byte and reset of the loader (loader/loader.S) against podule_poll and
    podule_rom_switch_page (arc_pipe_podule.c). Every register access of either side is a step, and
    so is every byte of the podule's page copy. */
module PagedRom {
  import opened Bits
  import opened Memory
  import opened Sequences

  const PAGE: nat := 1024
  const MAX_ADDRESS: nat := 0x200_0000
  const MAX_PAGES: nat := 0x8000
  const NO_PAGE: Word32 := 0xffff_ffff
  const SIGN: nat := 0x8000_0000

  // ---- The registers' contents

  /** `asr` by a whole number of bits, as a division by d. */
  function Asr(x: Word32, d: nat): Word32
    requires d > 0
  {
    if x < SIGN then x / d else ((x - WORD_MODULUS) / d) % WORD_MODULUS
  }

  function PageIndex(a: Word32): Word32 { Asr(a, PAGE) }

  /** The byte stored to PAGE_H: bits 8 up of the page index with the handshake flag. */
  function HighByte(page: Word32): nat { Or(Asr(page, 0x100) % 0x100, 0x80) }

  /** `lsl #22` then `lsr #22`. */
  function Offset(a: Word32): nat { Lsr(Lsl(a, 22), 22) }

  /** `r[PR_PAGE_H] & 0x80`. */
  predicate Flag(h: Byte) { And(h, 0x80) != 0 }

  /** The page that podule_poll reads from its two registers. */
  function PageNumber(h: Byte, l: Byte): nat { Or(Lsl(And(h, 0x7f), BYTE_BITS), l) }

  lemma FlagIs(h: Byte)
    ensures Flag(h) <==> h >= 0x80
    ensures And(h, 0x7f) == h % 0x80
  {
    hide Scale;
    ScaleTable(1);
    LsrIsDiv(h, 7);
    AndHighMask(h, 7, 1);
    AndOdd(h / 0x80, 0);
    ScaleTable(And(h / 0x80, 1));
    AndLowMask(h, 7);
  }

  lemma HighByteIs(page: Word32)
    ensures HighByte(page) == 0x80 + Asr(page, 0x100) % 0x80
  {
    hide Scale, Or, Asr;
    ScaleTable(1);
    OrTopBit(Asr(page, 0x100) % 0x100, 7);
    var x := Asr(page, 0x100);
    assert x % 0x80 == (x % 0x100) % 0x80;
  }

  lemma AsrLow(page: Word32)
    ensures 0x100 * (Asr(page, 0x100) % 0x80) + page % 0x100 == page % 0x8000
  {
    var q, r := page / 0x100, page % 0x100;
    assert page % 0x8000 == 0x100 * (q % 0x80) + r by { DivModIs(page, 0x8000, q / 0x80, 0x100 * (q % 0x80) + r); }
    if page >= SIGN {
      assert (page - WORD_MODULUS) / 0x100 == q - 0x100_0000;
      assert (q - 0x100_0000) % WORD_MODULUS == q - 0x100_0000 + WORD_MODULUS;
      assert (q - 0x100_0000 + WORD_MODULUS) % 0x80 == q % 0x80;
    }
  }

  /** The two bytes written by the loader are read back as the page, modulo 2^15. */
  lemma PageCodec(page: Word32)
    ensures HighByte(page) < 0x100 && Flag(HighByte(page))
    ensures PageNumber(HighByte(page), page % 0x100) == page % MAX_PAGES
  {
    HighByteIs(page);
    AsrLow(page);
    hide Asr, HighByte, Flag, PageNumber;
    CodecOf(HighByte(page), Asr(page, 0x100) % 0x80, page % 0x100);
  }

  lemma CodecOf(h: nat, c: nat, l: Byte)
    requires c < 0x80 && h == 0x80 + c
    ensures h < 0x100 && Flag(h) && PageNumber(h, l) == 0x100 * c + l
  {
    FlagIs(h);
    hide Or, And, Lsl, Flag;
    DivModIs(h, 0x80, 1, c);
    ShiftedByte(c, l);
  }

  lemma ShiftedByte(c: nat, l: Byte)
    requires c < 0x80
    ensures Or(Lsl(c, BYTE_BITS), l) == 0x100 * c + l
  {
    hide Or, Scale;
    ScaleTable(1);
    ScaleTable(c);
    OrAt(c, 8, 0x100, l);
  }

  lemma PageNumberBound(h: Byte, l: Byte)
    ensures PageNumber(h, l) < MAX_PAGES
  {
    hide Or, And, Lsl;
    FlagIs(h);
    ShiftedByte(h % 0x80, l);
  }

  lemma OffsetIs(a: Word32)
    ensures Offset(a) == a % PAGE
  {
    hide Scale, Lsr;
    ScaleTable(a);
    ScaleTable(1);
    ScaleOfSum(a, 20, 2);
    ScaleOfSum(1, 20, 2);
    var m := 0x40_0000;
    DivModIs(m * a, WORD_MODULUS, a / PAGE, m * (a % PAGE));
    LsrIsDiv(m * (a % PAGE), 22);
    DivModIs(m * (a % PAGE), m, a % PAGE, 0);
  }

  lemma ScaleOfSum(x: nat, k: nat, j: nat)
    requires j == 2
    ensures Scale(x, k + j) == 4 * Scale(x, k)
  {}

  // ---- The two parties

  datatype Answer = Value(b: Byte) | TooBig | TimedOut

  /** An answer of read_byte, and whether it was entered with the handshake flag up. */
  datatype Read = Read(address: Word32, answer: Answer, early: bool)

  datatype LoaderPc =
    | Idle
    | Resetting(v: Byte)
    | StoreLow(a: Word32)
    | StoreHigh(a: Word32)
    | Polling(a: Word32)
    | Loading(a: Word32)

  datatype PodulePc =
    | Resting
    | Flagged
    | GotHigh(h: Byte)
    | Switching(page: nat, i: nat)
    | Switched
    | Clearing(h: Byte)

  datatype Paging = Paging(
    // the ROM image, and what lies behind it in the podule's memory
    rom: seq<Byte>, slack: seq<Byte>,
    // shared memory
    window: seq<Byte>, pageL: Byte, pageH: Byte, reset: Byte,
    loader: LoaderPc, current: Word32, pod: PodulePc,
    // history: the answers; whether the call under way was entered with the handshake flag up; whether
    // a poll has timed out, a call has been entered with the flag up, and one that changes the page has
    served: seq<Read>, early: bool, timedOut: bool, hasty: bool, torn: bool)

  datatype Action = Ask(a: Word32) | Reset | Loader | Podule | GiveUp

  predicate Shape(s: Paging) {
    && |s.slack| == PAGE && |s.window| == PAGE
    && (s.pod.Switching? ==> s.pod.page * PAGE < |s.rom| && s.pod.i < PAGE)
  }

  /** The kilobyte that a page number selects. */
  function PageBytes(rom: seq<Byte>, slack: seq<Byte>, page: nat): (b: seq<Byte>)
    requires page * PAGE < |rom| && |slack| == PAGE
    ensures |b| == PAGE
  {
    (rom + slack)[page * PAGE..page * PAGE + PAGE]
  }

  /** Addresses that the signed comparison of read_byte refuses. */
  predicate Rejected(a: Word32) { MAX_ADDRESS <= a < SIGN }

  /** read_byte up to its first bus access. */
  function AskStep(s: Paging, a: Word32): (r: Paging)
    requires Shape(s)
    ensures Shape(r)
  {
    if !s.loader.Idle? then s
    else if Rejected(a) then s.(served := s.served + [Read(a, TooBig, false)])
    else
      var t := s.(early := Flag(s.pageH), hasty := s.hasty || Flag(s.pageH));
      if PageIndex(a) == s.current then t.(loader := Loading(a))
      else t.(current := PageIndex(a), loader := StoreLow(a), torn := s.torn || Flag(s.pageH))
  }

  function LoaderStep(s: Paging): (r: Paging)
    requires Shape(s)
    ensures Shape(r)
  {
    match s.loader
    case Idle => s
    case Resetting(v) => s.(reset := (v + 1) % 0x100, current := NO_PAGE, loader := Idle)
    case StoreLow(a) => s.(pageL := PageIndex(a) % 0x100, loader := StoreHigh(a))
    case StoreHigh(a) =>
      PageCodec(PageIndex(a));
      s.(pageH := HighByte(PageIndex(a)), loader := Polling(a))
    case Polling(a) => if Flag(s.pageH) then s else s.(loader := Loading(a))
    case Loading(a) =>
      OffsetIs(a);
      s.(served := s.served + [Read(a, Value(s.window[Offset(a)]), s.early)], loader := Idle)
  }

  /** podule_poll's paging part, with podule_rom_switch_page. */
  function PoduleStep(s: Paging): (r: Paging)
    requires Shape(s)
    ensures Shape(r)
  {
    match s.pod
    case Resting => if Flag(s.pageH) then s.(pod := Flagged) else s
    case Flagged => s.(pod := GotHigh(s.pageH))
    case GotHigh(h) =>
      var page := PageNumber(h, s.pageL);
      if page * PAGE < |s.rom| then s.(pod := Switching(page, 0)) else s.(pod := Switched)
    case Switching(page, i) =>
      s.(window := s.window[i := PageBytes(s.rom, s.slack, page)[i]],
         pod := if i + 1 < PAGE then Switching(page, i + 1) else Switched)
    case Switched => s.(pod := Clearing(s.pageH))
    case Clearing(h) => s.(pageH := And(h, 0x7f), pod := Resting)
  }

  function Step(s: Paging, act: Action): (r: Paging)
    requires Shape(s)
    ensures Shape(r)
  {
    match act
    case Ask(a) => AskStep(s, a)
    case Reset => if s.loader.Idle? then s.(loader := Resetting(s.reset)) else s
    case Loader => LoaderStep(s)
    case Podule => PoduleStep(s)
    case GiveUp =>
      if s.loader.Polling? && Flag(s.pageH)
      then s.(served := s.served + [Read(s.loader.a, TimedOut, s.early)], loader := Idle, timedOut := true)
      else s
  }

  function Run(s: Paging, acts: seq<Action>): (r: Paging)
    requires Shape(s)
    ensures Shape(r)
    decreases |acts|
  {
    if |acts| == 0 then s else Run(Step(s, acts[0]), acts[1..])
  }

  /** Power up: registers zero, nothing cached, whatever in the window. */
  predicate Initial(s: Paging) {
    && Shape(s) && s.pageH == 0 && s.loader.Idle? && s.current == NO_PAGE && s.pod.Resting?
    && s.served == [] && !s.timedOut && !s.hasty && !s.torn
  }

  // ---- The invariant

  /** The window shows the page, if the ROM has it. */
  predicate Shows(rom: seq<Byte>, slack: seq<Byte>, window: seq<Byte>, page: nat)
    requires |slack| == PAGE
  {
    page * PAGE < |rom| ==> window == PageBytes(rom, slack, page)
  }

  /** Both register bytes are those of the page. */
  predicate Requested(current: Word32, pageL: Byte, pageH: Byte) {
    pageL == current % 0x100 && pageH == HighByte(current)
  }

  /** While the flag is up the registers ask for the loader's page, waited for or given up on; while it
      is down the window shows that page, unless another is just being asked for. */
  predicate Cached(s: Paging)
    requires Shape(s)
  {
    if Flag(s.pageH) then s.current != NO_PAGE || s.loader.Polling? ==> Requested(s.current, s.pageL, s.pageH)
    else (s.current == NO_PAGE && !s.loader.Polling?) || s.loader.StoreLow? || s.loader.StoreHigh?
         || Shows(s.rom, s.slack, s.window, s.current % MAX_PAGES)
  }

  predicate LoaderOk(s: Paging) {
    match s.loader
    case StoreLow(a) => s.current == PageIndex(a) && !Flag(s.pageH)
    case StoreHigh(a) => s.current == PageIndex(a) && s.pageL == s.current % 0x100 && !Flag(s.pageH)
    case Polling(a) => s.current == PageIndex(a)
    case Loading(a) => s.current == PageIndex(a) && (s.early || !Flag(s.pageH))
    case _ => true
  }

  predicate PoduleOk(s: Paging)
    requires Shape(s)
  {
    match s.pod
    case Resting => true
    case Flagged => true
    case GotHigh(h) => h == s.pageH
    case Switching(page, i) =>
      && page == PageNumber(s.pageH, s.pageL)
      && s.window[..i] == PageBytes(s.rom, s.slack, page)[..i]
    case Switched => Shows(s.rom, s.slack, s.window, PageNumber(s.pageH, s.pageL))
    case Clearing(h) => h == s.pageH && Shows(s.rom, s.slack, s.window, PageNumber(s.pageH, s.pageL))
  }

  /** The podule leaves its rest only while the flag is up. */
  predicate Handshake(s: Paging) { !s.pod.Resting? ==> Flag(s.pageH) }

  /** The size error comes exactly from the addresses that the signed comparison rejects. */
  predicate SizeOk(r: Read) { r.answer.TooBig? <==> Rejected(r.address) }

  predicate Accepts(l: LoaderPc) {
    match l
    case StoreLow(a) => !Rejected(a)
    case StoreHigh(a) => !Rejected(a)
    case Polling(a) => !Rejected(a)
    case Loading(a) => !Rejected(a)
    case _ => true
  }

  predicate ValueOk(rom: seq<Byte>, r: Read) {
    !r.early && r.answer.Value? && r.address < MAX_ADDRESS && r.address < |rom| ==> r.answer.b == rom[r.address]
  }

  predicate SizesOk(rs: seq<Read>) { forall i :: 0 <= i < |rs| ==> SizeOk(rs[i]) }

  predicate ValuesOk(rom: seq<Byte>, rs: seq<Read>) { forall i :: 0 <= i < |rs| ==> ValueOk(rom, rs[i]) }

  /** As long as no read has changed the page with the flag up. */
  predicate Synced(s: Paging)
    requires Shape(s)
  {
    Cached(s) && LoaderOk(s) && PoduleOk(s) && Handshake(s) && ValuesOk(s.rom, s.served)
  }

  /** Until a poll times out, the flag is up only while the loader polls. */
  predicate InTime(s: Paging) { !s.timedOut ==> !s.hasty && (Flag(s.pageH) ==> s.loader.Polling?) }

  /** Until a read has been entered with the flag up, none is recorded as such. */
  predicate Orderly(s: Paging) {
    !s.hasty ==> !s.torn && (!s.loader.Idle? && !s.loader.Resetting? ==> !s.early) && NoneEarly(s.served)
  }

  predicate NoneEarly(rs: seq<Read>) { forall i :: 0 <= i < |rs| ==> !rs[i].early }

  predicate Inv(s: Paging) {
    Shape(s) && Accepts(s.loader) && SizesOk(s.served) && InTime(s) && Orderly(s) && (!s.torn ==> Synced(s))
  }

  lemma InitialInv(s: Paging)
    requires Initial(s)
    ensures Inv(s)
  {
    FlagIs(0);
  }

  lemma Served(rs: seq<Read>, r: Read)
    requires SizesOk(rs) && SizeOk(r)
    ensures SizesOk(rs + [r])
  {}

  lemma ValueServed(rom: seq<Byte>, rs: seq<Read>, r: Read)
    requires ValuesOk(rom, rs) && ValueOk(rom, r)
    ensures ValuesOk(rom, rs + [r])
  {}

  lemma AskInv(s: Paging, a: Word32)
    requires Inv(s)
    ensures Inv(AskStep(s, a))
  {
    hide Asr, Flag, ValueOk, SizesOk, ValuesOk, NoneEarly, PageBytes;
    if s.loader.Idle? && Rejected(a) {
      Served(s.served, Read(a, TooBig, false));
      if !s.hasty { NoneServed(s.served, Read(a, TooBig, false)); }
      NoValue(s.rom, a, false);
      if !s.torn { ValueServed(s.rom, s.served, Read(a, TooBig, false)); }
    }
  }

  lemma NoValue(rom: seq<Byte>, a: Word32, early: bool)
    ensures ValueOk(rom, Read(a, TooBig, early)) && ValueOk(rom, Read(a, TimedOut, early))
  {}

  lemma NoneServed(rs: seq<Read>, r: Read)
    requires NoneEarly(rs)
    ensures NoneEarly(rs + [r]) <==> !r.early
  {
    if r.early { assert (rs + [r])[|rs|].early; }
  }

  /** The address is inside its page, and the page index of an address below 32 MB is never the
      mark for no page. */
  lemma AddressParts(a: Word32)
    requires a < MAX_ADDRESS
    ensures PageIndex(a) == a / PAGE < MAX_PAGES && PageIndex(a) != NO_PAGE
    ensures a == PAGE * (a / PAGE) + a % PAGE
  {}

  /** `asr #10` copies the top bit down. */
  lemma PageIndexIs(a: Word32)
    ensures PageIndex(a) == if a < 0x8000_0000 then a / 1024 else 0xffc0_0000 + a / 1024
  {}

  /** Below 2 GB the addresses refused are exactly those whose page the registers cannot hold. */
  lemma RejectedExact(a: Word32)
    requires a < SIGN
    ensures Rejected(a) <==> PageIndex(a) >= 0x8000
  {}

  /** What the loader loads is the ROM's byte. */
  lemma LoadValue(s: Paging, a: Word32)
    requires Shape(s) && s.current == PageIndex(a)
    requires !s.early && s.current != NO_PAGE ==> Shows(s.rom, s.slack, s.window, s.current % MAX_PAGES)
    ensures Offset(a) < PAGE && ValueOk(s.rom, Read(a, Value(s.window[Offset(a)]), s.early))
  {
    hide Asr, Offset, PageIndex;
    OffsetIs(a);
    if a < MAX_ADDRESS && a < |s.rom| && !s.early {
      AddressParts(a);
      var page := a / PAGE;
      assert s.current % MAX_PAGES == page;
      assert s.window[a % PAGE] == (s.rom + s.slack)[page * PAGE + a % PAGE];
    }
  }

  lemma LoadInv(s: Paging)
    requires Inv(s) && s.loader.Loading?
    ensures Inv(LoaderStep(s))
  {
    hide Asr, Flag, ValueOk, SizesOk, ValuesOk, NoneEarly, PageBytes, Offset, PageIndex, Shows;
    var a := s.loader.a;
    OffsetIs(a);
    var r := Read(a, Value(s.window[Offset(a)]), s.early);
    Served(s.served, r);
    if !s.hasty { NoneServed(s.served, r); }
    if !s.torn {
      LoadValue(s, a);
      ValueServed(s.rom, s.served, r);
    }
  }

  lemma LoaderInv(s: Paging)
    requires Inv(s)
    ensures Inv(LoaderStep(s))
  {
    if s.loader.Loading? {
      LoadInv(s);
    } else {
      if s.loader.StoreHigh? { PageCodec(PageIndex(s.loader.a)); }
      hide Asr, Flag, ValuesOk, SizesOk, NoneEarly, PageBytes, Offset, HighByte, Shows;
    }
  }

  lemma CopiedPrefix(window: seq<Byte>, image: seq<Byte>, i: nat)
    requires i < |window| == |image| && window[..i] == image[..i]
    ensures window[i := image[i]][..i + 1] == image[..i + 1]
    ensures i + 1 == |image| ==> window[i := image[i]] == image
  {
    var w := window[i := image[i]];
    assert forall k :: 0 <= k < i ==> w[k] == window[..i][k] == image[..i][k];
  }

  /** The registers of a request give its page. */
  lemma RequestedNumber(s: Paging)
    requires Shape(s) && Cached(s) && Flag(s.pageH) && (s.current != NO_PAGE || s.loader.Polling?)
    ensures PageNumber(s.pageH, s.pageL) == s.current % MAX_PAGES
  {
    PageCodec(s.current);
    hide PageNumber, HighByte, Flag;
  }

  /** The flag taken down, the window shows the page asked for. */
  lemma ClearInv(s: Paging, h: Byte)
    requires Inv(s) && s.pod == Clearing(h)
    ensures Inv(PoduleStep(s))
  {
    FlagIs(And(h, 0x7f));
    if !s.torn && (s.current != NO_PAGE || s.loader.Polling?) { RequestedNumber(s); }
    hide Asr, ValuesOk, SizesOk, NoneEarly, HighByte, PageBytes, PageNumber, And, PageIndex, Shows;
  }

  lemma PoduleInv(s: Paging)
    requires Inv(s)
    ensures Inv(PoduleStep(s))
  {
    hide Asr, ValuesOk, SizesOk, NoneEarly, Offset, HighByte, PageBytes, PageNumber, And, PageIndex, Flag;
    match s.pod
    case Switching(page, i) => if !s.torn { CopiedPrefix(s.window, PageBytes(s.rom, s.slack, page), i); }
    case Clearing(h) => ClearInv(s, h);
    case _ =>
  }

  lemma GiveUpInv(s: Paging)
    requires Inv(s) && s.loader.Polling?
    ensures Inv(Step(s, GiveUp))
  {
    hide Asr, Offset, HighByte, PageBytes, Flag, PageNumber, ValueOk, SizesOk, ValuesOk, NoneEarly;
    var r := Read(s.loader.a, TimedOut, s.early);
    Served(s.served, r);
    NoValue(s.rom, s.loader.a, s.early);
    if !s.hasty { NoneServed(s.served, r); }
    if !s.torn { ValueServed(s.rom, s.served, r); }
  }

  lemma StepInv(s: Paging, act: Action)
    requires Inv(s)
    ensures Inv(Step(s, act))
  {
    hide Asr, ValuesOk, SizesOk, NoneEarly, Offset, HighByte, PageBytes, Flag, AskStep, LoaderStep, PoduleStep, Shows;
    match act
    case Ask(a) => AskInv(s, a);
    case Reset =>
    case Loader => LoaderInv(s);
    case Podule => PoduleInv(s);
    case GiveUp => if s.loader.Polling? { GiveUpInv(s); }
  }

  lemma {:induction false} RunInv(s: Paging, acts: seq<Action>)
    requires Shape(s) && Inv(s)
    ensures Inv(Run(s, acts))
    decreases |acts|
  {
    hide Inv, Step, Shape;
    if |acts| > 0 {
      StepInv(s, acts[0]);
      RunInv(Step(s, acts[0]), acts[1..]);
    }
  }

  // ---- Main results

  lemma PoduleKeeps(s: Paging)
    requires Shape(s)
    ensures var r := Step(s, Podule);
      && r == PoduleStep(s) && r.loader == s.loader && r.current == s.current && r.served == s.served
      && r.early == s.early && r.timedOut == s.timedOut && r.hasty == s.hasty && r.torn == s.torn
      && r.rom == s.rom && r.slack == s.slack && r.reset == s.reset
  {
    hide PageBytes, Flag, PageNumber, And;
  }

  lemma StepKeeps(s: Paging, act: Action)
    requires Shape(s)
    ensures Step(s, act).rom == s.rom && Step(s, act).slack == s.slack
    ensures s.timedOut ==> Step(s, act).timedOut
  {
    if act.Podule? { PoduleKeeps(s); }
    hide PoduleStep, Asr, Offset, HighByte, PageBytes, Flag, PageNumber, And, PageIndex, Rejected;
  }

  lemma {:induction false} RunKeeps(s: Paging, acts: seq<Action>)
    requires Shape(s)
    ensures Run(s, acts).rom == s.rom && Run(s, acts).slack == s.slack
    decreases |acts|
  {
    hide Step, Shape;
    if |acts| > 0 {
      StepKeeps(s, acts[0]);
      RunKeeps(Step(s, acts[0]), acts[1..]);
    }
  }

  /** Every call of read_byte that gets past its size test finds the handshake flag down. */
  predicate Patient(s: Paging, acts: seq<Action>)
    requires Shape(s)
    decreases |acts|
  {
    |acts| > 0 ==>
      && (acts[0].Ask? && s.loader.Idle? && !Rejected(acts[0].a) ==> !Flag(s.pageH))
      && Patient(Step(s, acts[0]), acts[1..])
  }

  /** No call of read_byte that gets past its size test changes the page with the flag up. */
  predicate Careful(s: Paging, acts: seq<Action>)
    requires Shape(s)
    decreases |acts|
  {
    |acts| > 0 ==>
      && (acts[0].Ask? && s.loader.Idle? && !Rejected(acts[0].a) && PageIndex(acts[0].a) != s.current ==>
            !Flag(s.pageH))
      && Careful(Step(s, acts[0]), acts[1..])
  }

  lemma StepHistory(s: Paging, act: Action)
    requires Shape(s)
    ensures var r, entered := Step(s, act), act.Ask? && s.loader.Idle? && !Rejected(act.a) && Flag(s.pageH);
      && (r.hasty <==> s.hasty || entered)
      && (r.torn <==> s.torn || (entered && PageIndex(act.a) != s.current))
  {
    if act.Podule? { PoduleKeeps(s); }
    hide PoduleStep, Asr, Offset, HighByte, PageBytes, Flag, PageNumber, And, Rejected, PageIndex;
  }

  /** The history says exactly whether a call was entered with the flag up, and whether one changed the
      page then. */
  lemma {:induction false} HistoryExact(s: Paging, acts: seq<Action>)
    requires Shape(s)
    ensures Run(s, acts).hasty <==> s.hasty || !Patient(s, acts)
    ensures Run(s, acts).torn <==> s.torn || !Careful(s, acts)
    decreases |acts|
  {
    hide Step, Shape, Flag, Rejected, PageIndex;
    if |acts| > 0 {
      StepHistory(s, acts[0]);
      HistoryExact(Step(s, acts[0]), acts[1..]);
    }
  }

  /** For every interleaving of resets, reads, timeouts and podule steps in which no read_byte changes
      the page with the handshake flag up: every byte returned by a call that found the flag down, for
      an address inside the ROM and below 32 MB, is the ROM's byte at that address. As long as no poll
      times out every call finds it down. And whatever happens, the size error is reported exactly for
      the addresses from 32 MB to 2 GB. */
  lemma ReadsAreRom(s: Paging, acts: seq<Action>, i: nat)
    requires Initial(s)
    ensures var r := Run(s, acts);
      i < |r.served| ==>
        var a, answer, early := r.served[i].address, r.served[i].answer, r.served[i].early;
        && (answer.TooBig? <==> 0x200_0000 <= a < 0x8000_0000)
        && (Careful(s, acts) && !early && answer.Value? && a < 0x200_0000 && a < |s.rom| ==> answer.b == s.rom[a])
        && (Patient(s, acts) ==> !early)
    ensures Patient(s, acts) ==> Careful(s, acts)
    ensures !Run(s, acts).timedOut ==> Patient(s, acts)
  {
    InitialInv(s);
    RunInv(s, acts);
    RunKeeps(s, acts);
    HistoryExact(s, acts);
    hide Run, Patient, Careful, Cached, LoaderOk, PoduleOk, Handshake, Shape;
  }

  /** The podule copies only a page that a whole request has asked for, the one the loader waits for if
      it still waits: it never acts on a number of which one byte is old. */
  lemma NoHalfWrittenPage(s: Paging, acts: seq<Action>)
    requires Initial(s) && Careful(s, acts)
    ensures var r := Run(s, acts);
      r.pod.Switching? ==>
        && Flag(r.pageH) && r.pod.page == PageNumber(r.pageH, r.pageL)
        && (r.loader.Polling? ==>
              r.pod.page == PageIndex(r.loader.a) % MAX_PAGES && r.pageL == PageIndex(r.loader.a) % 0x100)
        && (!r.timedOut ==> r.loader.Polling?)
  {
    InitialInv(s);
    RunInv(s, acts);
    HistoryExact(s, acts);
    hide Run, Careful;
    if Run(s, acts).pod.Switching? { SwitchingOk(Run(s, acts)); }
  }

  lemma SwitchingOk(r: Paging)
    requires Inv(r) && !r.torn && r.pod.Switching?
    ensures Flag(r.pageH) && r.pod.page == PageNumber(r.pageH, r.pageL)
    ensures r.loader.Polling? ==>
      r.pod.page == PageIndex(r.loader.a) % MAX_PAGES && r.pageL == PageIndex(r.loader.a) % 0x100
    ensures !r.timedOut ==> r.loader.Polling?
  {
    hide Asr, HighByte, PageBytes, Flag, PageIndex, PageNumber, SizesOk, ValuesOk, NoneEarly;
    if r.loader.Polling? { RequestedNumber(r); }
  }

  /** While a call that found the flag down reads the window the podule is at rest, and stays so. */
  lemma WindowStill(s: Paging, acts: seq<Action>)
    requires Initial(s) && Careful(s, acts)
    ensures var r := Run(s, acts);
      r.loader.Loading? && !r.early ==> r.pod.Resting? && PoduleStep(r) == r
  {
    InitialInv(s);
    RunInv(s, acts);
    HistoryExact(s, acts);
    hide Run, Careful, Asr, HighByte, PageBytes, Flag, PageIndex, PageNumber;
  }

  // ---- Reads with the flag up

  /** current_page is stored before the handshake: a read repeated at once after a timeout takes the
      page for loaded and returns whatever the window holds. */
  lemma RetryAfterTimeout(s: Paging)
    requires Inv(s) && s.loader.Polling? && !s.torn && Flag(s.pageH)
    ensures Offset(s.loader.a) < PAGE
    ensures Run(s, [GiveUp, Ask(s.loader.a), Loader]).served
      == s.served + [Read(s.loader.a, TimedOut, s.early),
                     Read(s.loader.a, Value(s.window[Offset(s.loader.a)]), true)]
  {
    hide Asr, HighByte, PageBytes, Flag, PageIndex, PoduleOk, SizesOk, ValuesOk, NoneEarly, Offset;
    var a := s.loader.a;
    OffsetIs(a);
    var t := Step(s, GiveUp);
    var u := Step(t, Ask(a));
    assert t == s.(served := s.served + [Read(a, TimedOut, s.early)], loader := Idle, timedOut := true);
    assert u == t.(loader := Loading(a), early := true, hasty := true);
    Unfold(s, GiveUp, Ask(a), Loader);
    hide Step, Run;
    assert Step(u, Loader) == LoaderStep(u) by { LoaderIs(u); }
  }

  /** From power-up, with any other byte in the window: a read that times out before the podule has
      answered, repeated with the flag still up, returns a byte that is not the ROM's. */
  lemma HastyReadIsWrong(s: Paging, a: Word32)
    requires Initial(s) && a < MAX_ADDRESS && a < |s.rom| && s.window[a % PAGE] != s.rom[a]
    ensures var acts := [Ask(a), Loader, Loader] + [GiveUp, Ask(a), Loader];
      var r := Run(s, acts);
      && !Patient(s, acts) && |r.served| == 2
      && r.served[1].early && r.served[1].answer.Value? && r.served[1].answer.b != s.rom[a]
  {
    var acts := [Ask(a), Loader, Loader];
    Asked(s, a);
    InitialInv(s);
    RunInv(s, acts);
    var t := Run(s, acts);
    OffsetIs(a);
    hide Run, Patient, Shape, Inv, PageIndex, Offset, HighByte, Flag, Asr;
    RetryAfterTimeout(t);
    RunAppend(s, acts, [GiveUp, Ask(a), Loader]);
    ReadsAreRom(s, acts + [GiveUp, Ask(a), Loader], 1);
  }

  /** And changing the page with the flag up spoils even a read that finds it down: the podule, about to
      clear the first request, takes the second one's flag down with it, and the first page stays in the
      window as the second. */
  lemma TornReadIsWrong(s: Paging, a: Word32, b: Word32)
    requires Initial(s) && a < MAX_ADDRESS && a < |s.rom| && b < MAX_ADDRESS && b < |s.rom| && a / PAGE != b / PAGE
    requires PageBytes(s.rom, s.slack, a / PAGE)[b % PAGE] != s.rom[b]
    ensures var acts := Torn(a, b);
      var r := Run(s, acts);
      && !Careful(s, acts) && |r.served| == 3
      && !r.served[2].early && r.served[2].answer.Value? && r.served[2].answer.b != s.rom[b]
  {
    var t := Run(s, [Ask(a), Loader, Loader]);
    Asked(s, a);
    var u := TornCopies(t, a);
    TornAsks(u, b);
    AddressParts(a);
    AddressParts(b);
    OffsetIs(b);
    hide Run, Careful, Shape, PageBytes, PageIndex, Offset, Flag, Asr, HighByte;
    TornParts(s, a, b);
    ReadsAreRom(s, Torn(a, b), 2);
  }

  /** Up to the podule's last load, then past a timeout to a second request and its read, and again. */
  function Torn(a: Word32, b: Word32): seq<Action> {
    [Ask(a), Loader, Loader] + (Repeat(Podule, PAGE + 4) + TornEnd(b))
  }

  function TornEnd(b: Word32): seq<Action> {
    [GiveUp, Ask(b), Loader] + ([Loader, Podule, Loader] + [Loader, Ask(b), Loader])
  }

  lemma TornParts(s: Paging, a: Word32, b: Word32)
    requires Shape(s)
    ensures Run(s, Torn(a, b)) == Run(Run(Run(s, [Ask(a), Loader, Loader]), Repeat(Podule, PAGE + 4)), TornEnd(b))
  {
    hide Run, Shape;
    RunAppend(s, [Ask(a), Loader, Loader], Repeat(Podule, PAGE + 4) + TornEnd(b));
    RunAppend(Run(s, [Ask(a), Loader, Loader]), Repeat(Podule, PAGE + 4), TornEnd(b));
  }

  /** The page of the first request is in the window, and the podule has loaded the flag to clear it. */
  lemma TornCopies(t: Paging, a: Word32) returns (u: Paging)
    requires Shape(t) && t.pod.Resting? && Flag(t.pageH) && a < MAX_ADDRESS && a < |t.rom|
    requires PageNumber(t.pageH, t.pageL) == a / PAGE
    ensures u == t.(window := PageBytes(t.rom, t.slack, a / PAGE), pod := Clearing(t.pageH))
    ensures Shape(u) && u == Run(t, Repeat(Podule, PAGE + 4))
  {
    hide PageNumber, Flag, PageBytes, CopyRest, Run;
    OpenSteps(t);
    var v := PodSteps(t, 3);
    CopySteps(v, PAGE);
    WholeCopy(t.window, PageBytes(t.rom, t.slack, a / PAGE));
    u := PoduleStep(PodSteps(v, PAGE));
    PodStepsAdd(v, PAGE, 1);
    PodStepsAdd(t, 3, PAGE + 1);
    assert PodSteps(PodSteps(v, PAGE), 1) == PodSteps(u, 0) == u;
    PodRun(t, PAGE + 4);
  }

  lemma {:induction false} PodRun(s: Paging, k: nat)
    requires Shape(s)
    ensures Run(s, Repeat(Podule, k)) == PodSteps(s, k)
    decreases k
  {
    hide PoduleStep, Shape;
    if k > 0 {
      assert Repeat(Podule, k)[1..] == Repeat(Podule, k - 1);
      assert Step(s, Podule) == PoduleStep(s);
      PodRun(PoduleStep(s), k - 1);
    }
  }

  /** The second request's flag is cleared with the first's. */
  lemma TornAsks(u: Paging, b: Word32)
    requires Shape(u) && u.loader.Polling? && !u.early && Flag(u.pageH) && u.pod == Clearing(u.pageH)
    requires b < MAX_ADDRESS && PageIndex(b) != u.current && u.served == []
    ensures Offset(b) < PAGE
    ensures var r := Run(u, TornEnd(b));
      |r.served| == 3 && r.served[2] == Read(b, Value(u.window[Offset(b)]), false)
  {
    hide Asr, PageIndex, HighByte, Flag, And, Offset, Run, PageBytes;
    OffsetIs(b);
    PageCodec(PageIndex(b));
    FlagIs(u.pageH);
    FlagIs(And(u.pageH, 0x7f));
    Unfold(u, GiveUp, Ask(b), Loader);
    var v := Step(Step(Step(u, GiveUp), Ask(b)), Loader);
    assert v == u.(served := [Read(u.loader.a, TimedOut, false)], timedOut := true, early := true, hasty := true,
      torn := true, current := PageIndex(b), pageL := PageIndex(b) % 0x100, loader := StoreHigh(b));
    RunAppend(u, [GiveUp, Ask(b), Loader], [Loader, Podule, Loader] + [Loader, Ask(b), Loader]);
    TornPolls(v, b);
  }

  lemma TornPolls(v: Paging, b: Word32)
    requires Shape(v) && v.loader == StoreHigh(b) && v.pod.Clearing? && !Flag(And(v.pod.h, 0x7f))
    requires b < MAX_ADDRESS && PageIndex(b) == v.current && |v.served| == 1
    ensures Offset(b) < PAGE
    ensures var r := Run(v, [Loader, Podule, Loader] + [Loader, Ask(b), Loader]);
      |r.served| == 3 && r.served[2] == Read(b, Value(v.window[Offset(b)]), false)
  {
    hide Asr, PageIndex, HighByte, Flag, And, Offset, Run, PageBytes;
    OffsetIs(b);
    PageCodec(PageIndex(b));
    Unfold(v, Loader, Podule, Loader);
    var w := Step(Step(Step(v, Loader), Podule), Loader);
    assert w == v.(pageH := And(v.pod.h, 0x7f), pod := Resting, loader := Loading(b));
    RunAppend(v, [Loader, Podule, Loader], [Loader, Ask(b), Loader]);
    Unfold(w, Loader, Ask(b), Loader);
  }

  lemma AskedPage(a: Word32)
    requires a < MAX_ADDRESS
    ensures var h := HighByte(PageIndex(a));
      && h < 0x100 && Flag(h) && PageNumber(h, PageIndex(a) % 0x100) == a / PAGE
      && PageIndex(a) != NO_PAGE && !Rejected(a)
  {
    AddressParts(a);
    hide Asr, PageIndex, HighByte, Flag, PageNumber;
    SmallPage(PageIndex(a));
  }

  lemma SmallPage(page: Word32)
    requires page < MAX_PAGES
    ensures HighByte(page) < 0x100 && Flag(HighByte(page)) && PageNumber(HighByte(page), page % 0x100) == page
  {
    PageCodec(page);
    hide HighByte, Flag, PageNumber;
  }

  /** The request has just been written. */
  lemma Asked(s: Paging, a: Word32)
    requires Initial(s) && a < MAX_ADDRESS
    ensures var t := Run(s, [Ask(a), Loader, Loader]);
      && t == s.(current := PageIndex(a), loader := Polling(a), early := false, pageL := t.pageL, pageH := t.pageH)
      && Flag(t.pageH) && PageNumber(t.pageH, t.pageL) == a / PAGE
  {
    FlagIs(0);
    AskedPage(a);
    hide PageIndex, Offset, HighByte, Flag, Asr, PageNumber;
    Unfold(s, Ask(a), Loader, Loader);
    hide Run;
    var t := Step(s, Ask(a));
    assert t == s.(current := PageIndex(a), loader := StoreLow(a), early := false);
    var u := Step(t, Loader);
    assert u == t.(pageL := PageIndex(a) % 0x100, loader := StoreHigh(a));
    assert Step(u, Loader) == u.(pageH := HighByte(PageIndex(a)), loader := Polling(a));
  }

  lemma {:induction false} RunAppend(s: Paging, a: seq<Action>, b: seq<Action>)
    requires Shape(s)
    ensures Run(s, a + b) == Run(Run(s, a), b)
    decreases |a|
  {
    hide Step, Shape;
    if |a| == 0 {
      assert a + b == b;
    } else {
      assert (a + b)[0] == a[0] && (a + b)[1..] == a[1..] + b;
      RunAppend(Step(s, a[0]), a[1..], b);
    }
  }

  lemma LoaderIs(s: Paging)
    requires Shape(s)
    ensures Step(s, Loader) == LoaderStep(s)
  {
    hide LoaderStep;
  }

  lemma RunCons(s: Paging, a: Action, rest: seq<Action>)
    requires Shape(s)
    ensures Run(s, [a] + rest) == Run(Step(s, a), rest)
  {
    hide Step, Shape;
    assert ([a] + rest)[1..] == rest && ([a] + rest)[0] == a;
  }

  lemma Unfold(s: Paging, a: Action, b: Action, c: Action)
    requires Shape(s)
    ensures Run(s, [a, b, c]) == Step(Step(Step(s, a), b), c)
  {
    hide Step, Shape, Run;
    assert [a, b, c] == [a] + ([b] + ([c] + []));
    RunCons(s, a, [b] + ([c] + []));
    RunCons(Step(s, a), b, [c] + []);
    RunCons(Step(Step(s, a), b), c, []);
    RunNone(Step(Step(Step(s, a), b), c));
  }

  lemma RunNone(s: Paging)
    requires Shape(s)
    ensures Run(s, []) == s
  {}

  // ---- One uninterrupted podule_poll

  function PodSteps(s: Paging, k: nat): (r: Paging)
    requires Shape(s)
    ensures Shape(r)
    decreases k
  {
    if k == 0 then s else PodSteps(PoduleStep(s), k - 1)
  }

  /** What podule_poll does to window and registers. */
  function Polled(s: Paging): (r: Paging)
    requires Shape(s) && s.pod.Resting?
    ensures Shape(r) && r.pod.Resting?
  {
    if !Flag(s.pageH) then s
    else
      var page := PageNumber(s.pageH, s.pageL);
      var window := if page * PAGE < |s.rom| then PageBytes(s.rom, s.slack, page) else s.window;
      s.(window := window, pageH := And(s.pageH, 0x7f))
  }

  lemma {:induction false} PodStepsAdd(s: Paging, j: nat, k: nat)
    requires Shape(s)
    ensures PodSteps(s, j + k) == PodSteps(PodSteps(s, j), k)
    decreases j
  {
    hide PoduleStep, Shape;
    if j > 0 { PodStepsAdd(PoduleStep(s), j - 1, k); }
  }

  lemma {:induction false} CopySteps(s: Paging, k: nat)
    requires Shape(s) && s.pod.Switching? && k == PAGE - s.pod.i
    ensures PodSteps(s, k)
      == s.(window := CopyRest(s.window, PageBytes(s.rom, s.slack, s.pod.page), 0, 0, s.pod.i, PAGE), pod := Switched)
    decreases k
  {
    hide PageBytes, CopyRest;
    var page, i := s.pod.page, s.pod.i;
    var image := PageBytes(s.rom, s.slack, page);
    CopyOne(s.window, image, 0, 0, i, PAGE);
    CopyOne(s.window[i := image[i]], image, 0, 0, i + 1, PAGE);
    var t := PoduleStep(s);
    assert t.window == s.window[i := image[i]];
    if i + 1 < PAGE {
      CopySteps(t, k - 1);
    } else {
      assert PodSteps(t, 0) == t;
    }
  }

  lemma ClearSteps(s: Paging)
    requires Shape(s) && s.pod.Switched?
    ensures PodSteps(s, 2) == s.(pageH := And(s.pageH, 0x7f), pod := Resting)
  {
    hide And;
    var t := PoduleStep(s);
    assert PodSteps(s, 2) == PodSteps(t, 1) == PodSteps(PoduleStep(t), 0);
  }

  lemma OpenSteps(s: Paging)
    requires Shape(s) && s.pod.Resting? && Flag(s.pageH)
    ensures var page := PageNumber(s.pageH, s.pageL);
      PodSteps(s, 3) == s.(pod := if page * PAGE < |s.rom| then Switching(page, 0) else Switched)
  {
    hide PageNumber, Flag, PageBytes;
    var t := PoduleStep(s);
    var u := PoduleStep(t);
    assert PodSteps(s, 3) == PodSteps(t, 2) == PodSteps(u, 1) == PodSteps(PoduleStep(u), 0);
  }

  /** One uninterrupted podule_poll is a run of the podule's steps, at most PAGE + 5 of them. */
  lemma PollIsRun(s: Paging) returns (k: nat)
    requires Shape(s) && s.pod.Resting?
    ensures k <= PAGE + 5 && PodSteps(s, k) == Polled(s)
  {
    hide And, PageNumber, Flag, PageBytes, PoduleStep, CopyRest;
    if Flag(s.pageH) {
      OpenSteps(s);
      var page := PageNumber(s.pageH, s.pageL);
      var t := PodSteps(s, 3);
      if page * PAGE < |s.rom| {
        CopySteps(t, PAGE);
        WholeCopy(s.window, PageBytes(s.rom, s.slack, page));
        ClearSteps(PodSteps(t, PAGE));
        PodStepsAdd(t, PAGE, 2);
        PodStepsAdd(s, 3, PAGE + 2);
        k := 3 + (PAGE + 2);
      } else {
        ClearSteps(t);
        PodStepsAdd(s, 3, 2);
        k := 5;
      }
    } else {
      assert PodSteps(s, 0) == s;
      k := 0;
    }
  }

  lemma WholeCopy(window: seq<Byte>, image: seq<Byte>)
    requires |window| == |image|
    ensures CopyRest(window, image, 0, 0, 0, |image|) == image
  {}

  // ---- How long an answer takes

  /** The bytes to copy for the page that the registers ask for. */
  function Bytes(s: Paging, h: Byte): nat { if PageNumber(h, s.pageL) * PAGE < |s.rom| then PAGE else 0 }

  /** The podule's steps until it rests with the flag down, as long as the loader makes no request. */
  function Remaining(s: Paging): nat
    requires Shape(s)
  {
    match s.pod
    case Resting => if Flag(s.pageH) then Bytes(s, s.pageH) + 5 else 0
    case Flagged => Bytes(s, s.pageH) + 4
    case GotHigh(h) => Bytes(s, h) + 3
    case Switching(page, i) => PAGE - i + 2
    case Switched => 2
    case Clearing(h) => 1
  }

  /** Every step of the podule brings it one nearer to its answer. */
  lemma RemainingShrinks(s: Paging)
    requires Shape(s)
    ensures Remaining(PoduleStep(s)) == if Remaining(s) > 0 then Remaining(s) - 1 else 0
  {
    match s.pod
    case Clearing(h) => ClearedFlag(h); hide PageNumber, PageBytes, And, Flag;
    case GotHigh(h) => hide PageNumber, PageBytes, And, Flag;
    case _ => hide Bytes, PageNumber, PageBytes, And, Flag;
  }

  lemma ClearedFlag(h: Byte)
    ensures !Flag(And(h, 0x7f))
  {
    FlagIs(h);
    hide And, Flag;
    FlagIs(And(h, 0x7f));
  }

  lemma RemainingBound(s: Paging)
    requires Shape(s)
    ensures Remaining(s) <= PAGE + 5
    ensures Remaining(s) == 0 ==> !Flag(s.pageH)
    ensures Inv(s) && !s.torn ==> (Remaining(s) > 0 <==> Flag(s.pageH))
  {
    hide PageNumber, PageBytes, Flag, Cached, LoaderOk, PoduleOk, ValuesOk, SizesOk, NoneEarly;
  }

  /** The steps that a fresh request for a's page takes. */
  function Needed(rom: seq<Byte>, a: Word32): nat {
    if (PageIndex(a) % MAX_PAGES) * PAGE < |rom| then PAGE + 5 else 5
  }

  /** The request just made finds the podule at rest. */
  lemma RequestNeeds(s: Paging)
    requires Inv(s) && !s.torn && s.loader.StoreHigh?
    ensures Remaining(LoaderStep(s)) == Needed(s.rom, s.loader.a)
  {
    PageCodec(PageIndex(s.loader.a));
    hide Asr, PageIndex, PageNumber, HighByte, PageBytes, Flag, ValuesOk, SizesOk, NoneEarly;
  }

  /** A poll answers the request that is waiting: the flag is down and the window shows the page. */
  lemma PollAnswers(s: Paging)
    requires Inv(s) && !s.torn && s.loader.Polling? && s.pod.Resting?
    ensures var r := Polled(s);
      !Flag(r.pageH) && Shows(s.rom, s.slack, r.window, PageIndex(s.loader.a) % MAX_PAGES)
  {
    FlagIs(And(s.pageH, 0x7f));
    hide Asr, HighByte, PageBytes, Flag, PageIndex, PageNumber, And, SizesOk, ValuesOk, NoneEarly;
    if Flag(s.pageH) { RequestedNumber(s); }
  }
}
