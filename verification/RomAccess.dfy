/** The code on both sides of the paged window: loader/loader.S with its word current_page, and the
    podule's podule_poll and podule_rom_switch_page over the shared arrays. */
module RomAccess {
  import opened Bits
  import opened PagedRom
  import opened PoduleSpace

  /** The poll loop's timeout. */
  const TIMEOUT: nat := 0x10_0000

  /** The steps that the podule makes after k of the loader's accesses, from the n-th on. */
  function Steps(others: nat -> nat, n: nat, k: nat): nat {
    if k == 0 then 0 else Steps(others, n, k - 1) + others(n + k - 1)
  }

  /** A podule that answers within the timeout, whenever it is asked. */
  ghost predicate Prompt(others: nat -> nat) {
    forall n :: Steps(others, n, TIMEOUT) >= PAGE + 5
  }

  lemma {:induction false} OneEach(others: nat -> nat, n: nat, k: nat)
    requires forall i :: others(i) >= 1
    ensures Steps(others, n, k) >= k
    decreases k
  {
    if k > 0 { OneEach(others, n, k - 1); }
  }

  /** One step of the podule to each access of the loader is enough. */
  lemma OneStepEach(others: nat -> nat)
    requires forall i :: others(i) >= 1
    ensures Prompt(others)
  {
    forall n ensures Steps(others, n, TIMEOUT) >= PAGE + 5 { OneEach(others, n, TIMEOUT); }
  }

  lemma AlwaysPrompt(others: nat -> nat, n: nat)
    requires Prompt(others)
    ensures Steps(others, n, TIMEOUT) >= PAGE + 5
  {}

  /** What is left of x after n. */
  function Less(x: nat, n: nat): nat { if x > n then x - n else 0 }

  /** The bus: after the loader's n-th access the podule makes `others(n)` steps. */
  class Bus {
    const others: nat -> nat
    var accesses: nat
    var s: Paging
    ghost const start: Paging
    ghost var trace: seq<Action>

    ghost predicate Valid()
      reads this
    {
      Shape(start) && s == Run(start, trace) && Inv(s)
    }

    constructor (start: Paging, others: nat -> nat)
      requires Initial(start)
      ensures Valid() && s == start && this.others == others
    {
      this.others, accesses, s, trace := others, 0, start, [];
      this.start := start;
      InitialInv(start);
    }

    /** What an action of the loader is sure to leave behind once the podule has gone on. */
    twostate predicate Went(before: Paging)
      reads this
    {
      && Valid() && s.loader == before.loader && s.current == before.current
      && s.served == before.served && s.early == before.early && s.timedOut == before.timedOut
      && s.hasty == before.hasty && s.torn == before.torn
      && s.rom == before.rom && s.reset == before.reset
    }

    /** One action of the loader, then steps of the podule. */
    method Act(a: Action)
      requires Valid() && !a.Podule?
      modifies this
      ensures Shape(old(s)) && Went(Step(old(s), a)) && accesses == old(accesses) + 1
      ensures Remaining(s) == Less(Remaining(Step(old(s), a)), others(old(accesses)))
    {
      hide Inv, Run, Step, Shape, Remaining;
      ghost var was := trace;
      RunStep(start, was, a);
      StepInv(s, a);
      s := Step(s, a);
      trace := was + [a];
      Podule(others(accesses));
      accesses := accesses + 1;
    }

    /** The podule alone, for a while. */
    method Podule(n: nat)
      requires Valid()
      modifies `s, `trace
      ensures Went(old(s)) && Remaining(s) == Less(Remaining(old(s)), n)
    {
      hide Inv, Run, Step, PoduleStep, Shape, Remaining;
      var i := 0;
      while i < n
        invariant i <= n && Went(old(s)) && Remaining(s) == Less(Remaining(old(s)), i)
      {
        RunStep(start, trace, PagedRom.Podule);
        StepInv(s, PagedRom.Podule);
        PoduleKeeps(s);
        RemainingShrinks(s);
        trace := trace + [PagedRom.Podule];
        s := Step(s, PagedRom.Podule);
        i := i + 1;
      }
    }
  }

  lemma {:induction false} RunStep(s: Paging, acts: seq<Action>, a: Action)
    requires Shape(s)
    ensures Run(s, acts + [a]) == Step(Run(s, acts), a)
    decreases |acts|
  {
    hide Step, Shape;
    if |acts| == 0 {
      assert acts + [a] == [a] && [a][1..] == [];
    } else {
      assert (acts + [a])[0] == acts[0] && (acts + [a])[1..] == acts[1..] + [a];
      RunStep(Step(s, acts[0]), acts[1..], a);
    }
  }

  /** loader.S. */
  class Loader {
    const bus: Bus
    var currentPage: Word32

    ghost predicate Valid()
      reads this, bus
    {
      bus.Valid() && bus.s.loader.Idle? && currentPage == bus.s.current
    }

    constructor (bus: Bus)
      requires bus.Valid() && bus.s.loader.Idle? && bus.s.current == NO_PAGE
      ensures Valid() && this.bus == bus
    {
      this.bus, currentPage := bus, NO_PAGE;
    }

    /** reset: one more in the reset register, whatever the podule did meanwhile, and nothing cached. */
    method ResetPodule()
      requires Valid()
      modifies this, bus
      ensures bus.s.reset == (old(bus.s.reset) + 1) % 0x100
      ensures Valid() && bus.s.served == old(bus.s.served) && bus.s.timedOut == old(bus.s.timedOut)
      ensures bus.s.hasty == old(bus.s.hasty) && bus.s.torn == old(bus.s.torn)
      ensures currentPage == NO_PAGE && bus.s.rom == old(bus.s.rom)
    {
      hide Run, Inv, AskStep, PoduleStep;
      bus.Act(Reset);
      bus.Act(PagedRom.Loader);
      currentPage := NO_PAGE;
    }

    /** read_byte: unless it times out, the answer is the ROM's byte for every address inside the ROM
        below 32 MB, as long as it finds the handshake flag down and no earlier call has changed the
        page with the flag up. If none timed out, all have found it down. It times out exactly when
        the page changes and the podule makes too few steps while the loader polls; if the podule is
        prompt, never. The size error is for 32 MB to 2 GB. */
    method ReadByte(a: Word32) returns (answer: Answer)
      requires Valid()
      modifies this, bus
      ensures Valid() && bus.s.rom == old(bus.s.rom)
      ensures bus.s.served == old(bus.s.served) + [Read(a, answer, !Rejected(a) && Flag(old(bus.s.pageH)))]
      ensures answer.TooBig? <==> 0x200_0000 <= a < 0x8000_0000
      ensures bus.s.timedOut == (old(bus.s.timedOut) || answer.TimedOut?)
      ensures bus.s.hasty == (old(bus.s.hasty) || (!Rejected(a) && Flag(old(bus.s.pageH))))
      ensures bus.s.torn ==
        (old(bus.s.torn) || (!Rejected(a) && PageIndex(a) != old(currentPage) && Flag(old(bus.s.pageH))))
      ensures !bus.s.torn && !Flag(old(bus.s.pageH)) && !answer.TimedOut? && a < 0x200_0000 && a < |bus.s.rom| ==>
        answer == Value(bus.s.rom[a])
      ensures answer.TimedOut? ==> bus.accesses == old(bus.accesses) + 3 + 0x10_0000
      ensures bus.s.torn ==> bus.s.hasty
      ensures bus.s.hasty ==> bus.s.timedOut
      ensures !bus.s.torn ==>
        (answer.TimedOut? <==>
          !Rejected(a) && PageIndex(a) != old(currentPage)
          && Steps(bus.others, old(bus.accesses) + 2, 0x10_0000) < Needed(bus.s.rom, a))
      ensures Prompt(bus.others) ==> !answer.TimedOut?
    {
      hide Run, Inv, Step, AskStep, PoduleStep, LoaderStep, Shape, Steps, Needed, Remaining, PageIndex, Flag, Offset,
        Prompt;
      if Prompt(bus.others) { AlwaysPrompt(bus.others, bus.accesses + 2); }
      AskEffect(bus.s, a);
      bus.Act(Ask(a));
      if MAX_ADDRESS <= a < SIGN {
        answer := TooBig;
      } else {
        var loaded := GetPage(a);
        if loaded {
          LoadEffect(bus.s);
          answer := Value(bus.s.window[Offset(a)]);
          bus.Act(PagedRom.Loader);
        } else {
          answer := TimedOut;
        }
      }
      LastAnswer(bus.s, |old(bus.s.served)|);
    }

    /** read_byte from its test of current_page to page_ok. */
    method GetPage(a: Word32) returns (loaded: bool)
      requires bus.Valid() && bus.s.current == PageIndex(a)
      requires bus.s.loader == if PageIndex(a) == currentPage then Loading(a) else StoreLow(a)
      modifies this, bus
      ensures bus.Valid() && currentPage == bus.s.current == PageIndex(a) && bus.s.rom == old(bus.s.rom)
      ensures bus.s.early == old(bus.s.early) && bus.s.hasty == old(bus.s.hasty) && bus.s.torn == old(bus.s.torn)
      ensures if loaded then bus.s.loader == Loading(a) && bus.s.served == old(bus.s.served)
                             && bus.s.timedOut == old(bus.s.timedOut)
              else bus.s.loader.Idle? && bus.s.timedOut
                   && bus.s.served == old(bus.s.served) + [Read(a, TimedOut, old(bus.s.early))]
      ensures !loaded ==> bus.accesses == old(bus.accesses) + 2 + 0x10_0000 && PageIndex(a) != old(currentPage)
      ensures PageIndex(a) != old(currentPage) ==>
        var given := Steps(bus.others, old(bus.accesses) + 1, 0x10_0000);
        && (given >= PAGE + 5 ==> loaded)
        && (!bus.s.torn ==> (loaded <==> given >= Needed(bus.s.rom, a)))
    {
      hide Run, Inv, Step, AskStep, PoduleStep, LoaderStep, Shape, Steps, Needed, Remaining, PageIndex, Flag;
      loaded := true;
      var page := PageIndex(a);
      if page != currentPage {
        currentPage := page;
        loaded := ChangePage(a);
      }
    }

    /** The two stores and the poll. It fails exactly when the podule makes fewer steps, from the second
        store to the last poll, than its answer takes. */
    method ChangePage(a: Word32) returns (loaded: bool)
      requires bus.Valid() && bus.s.loader == StoreLow(a)
      modifies bus
      ensures bus.Valid() && bus.s.current == old(bus.s.current) && bus.s.rom == old(bus.s.rom)
      ensures bus.s.early == old(bus.s.early) && bus.s.hasty == old(bus.s.hasty) && bus.s.torn == old(bus.s.torn)
      ensures if loaded then bus.s.loader == Loading(a) && bus.s.served == old(bus.s.served)
                             && bus.s.timedOut == old(bus.s.timedOut)
              else bus.s.loader.Idle? && bus.s.timedOut
                   && bus.s.served == old(bus.s.served) + [Read(a, TimedOut, old(bus.s.early))]
      ensures !loaded ==> bus.accesses == old(bus.accesses) + 2 + 0x10_0000
      ensures var given := Steps(bus.others, old(bus.accesses) + 1, 0x10_0000);
        && (given >= PAGE + 5 ==> loaded)
        && (!bus.s.torn ==> (loaded <==> given >= Needed(bus.s.rom, a)))
    {
      hide Run, Inv, Step, PoduleStep, LoaderStep, Shape, Flag, Remaining, Needed;
      StoreEffect(bus.s);
      bus.Act(PagedRom.Loader);
      StoreEffect(bus.s);
      ghost var n, due := bus.accesses, Remaining(Step(bus.s, PagedRom.Loader));
      RequestDue(bus.s);
      bus.Act(PagedRom.Loader);
      loaded := PollPage(a, n, due);
    }

    /** The poll loop, after the request that was access n, when `due` steps of the podule were due. */
    method PollPage(a: Word32, ghost n: nat, ghost due: nat) returns (loaded: bool)
      requires bus.Valid() && bus.s.loader == Polling(a) && bus.accesses == n + 1
      requires Remaining(bus.s) == Less(due, Steps(bus.others, n, 1))
      modifies bus
      ensures bus.Valid() && bus.s.current == old(bus.s.current) && bus.s.rom == old(bus.s.rom)
      ensures bus.s.early == old(bus.s.early) && bus.s.hasty == old(bus.s.hasty) && bus.s.torn == old(bus.s.torn)
      ensures if loaded then bus.s.loader == Loading(a) && bus.s.served == old(bus.s.served)
                             && bus.s.timedOut == old(bus.s.timedOut)
              else bus.s.loader.Idle? && bus.s.timedOut
                   && bus.s.served == old(bus.s.served) + [Read(a, TimedOut, old(bus.s.early))]
      ensures !loaded ==> bus.accesses == old(bus.accesses) + TIMEOUT
      ensures Steps(bus.others, n, TIMEOUT) >= due ==> loaded
      ensures !bus.s.torn && loaded ==> Steps(bus.others, n, TIMEOUT) >= due
    {
      hide Run, Inv, Step, PoduleStep, LoaderStep, Shape, Flag, Remaining;
      var r3 := TIMEOUT;
      while true
        invariant bus.Valid() && bus.s.loader == Polling(a) && 1 <= r3 <= TIMEOUT
        invariant bus.s.current == old(bus.s.current) && bus.s.rom == old(bus.s.rom)
        invariant bus.s.served == old(bus.s.served) && bus.s.timedOut == old(bus.s.timedOut)
        invariant bus.s.early == old(bus.s.early) && bus.s.hasty == old(bus.s.hasty) && bus.s.torn == old(bus.s.torn)
        invariant bus.accesses == n + (TIMEOUT - r3) + 1
        invariant Remaining(bus.s) == Less(due, Steps(bus.others, n, TIMEOUT - r3 + 1))
        decreases r3
      {
        PollEffect(bus.s);
        StillDue(bus.s, due, bus.others, n, TIMEOUT - r3 + 1);
        if !Flag(bus.s.pageH) {
          bus.Act(PagedRom.Loader);
          return true;
        }
        if r3 == 1 {
          bus.Act(GiveUp);
          return false;
        }
        bus.Act(PagedRom.Loader);
        r3 := r3 - 1;
      }
    }
  }

  lemma RequestDue(s: Paging)
    requires Inv(s) && s.loader.StoreHigh?
    ensures var due := Remaining(Step(s, PagedRom.Loader));
      due <= PAGE + 5 && (!s.torn ==> due == Needed(s.rom, s.loader.a))
  {
    if !s.torn { RequestNeeds(s); }
    RemainingBound(LoaderStep(s));
    hide Inv, Remaining, LoaderStep, Needed;
  }

  /** What the flag says, at a poll, of the steps made so far. */
  lemma StillDue(s: Paging, due: nat, others: nat -> nat, n: nat, k: nat)
    requires Inv(s) && Remaining(s) == Less(due, Steps(others, n, k)) && 1 <= k <= TIMEOUT
    ensures Steps(others, n, k) >= due ==> !Flag(s.pageH)
    ensures !s.torn && !Flag(s.pageH) ==> Steps(others, n, TIMEOUT) >= due
  {
    RemainingBound(s);
    StepsGrow(others, n, k, TIMEOUT);
    hide Inv, Remaining, Steps, Flag;
  }

  lemma {:induction false} StepsGrow(others: nat -> nat, n: nat, j: nat, k: nat)
    requires j <= k
    ensures Steps(others, n, j) <= Steps(others, n, k)
    decreases k
  {
    if j < k { StepsGrow(others, n, j, k - 1); }
  }

  lemma AskEffect(s: Paging, a: Word32)
    requires Shape(s) && s.loader.Idle?
    ensures var r := Step(s, Ask(a));
      && r.timedOut == s.timedOut && r.rom == s.rom && r.hasty == (s.hasty || (!Rejected(a) && Flag(s.pageH)))
      && r.torn == (s.torn || (!Rejected(a) && PageIndex(a) != s.current && Flag(s.pageH)))
      && if MAX_ADDRESS <= a < SIGN
         then r.loader.Idle? && r.current == s.current && r.served == s.served + [Read(a, TooBig, false)]
         else r.current == PageIndex(a) && r.served == s.served && r.early == Flag(s.pageH)
              && r.loader == if PageIndex(a) == s.current then Loading(a) else StoreLow(a)
  {
    hide PageIndex;
  }

  lemma StoreEffect(s: Paging)
    requires Shape(s) && (s.loader.StoreLow? || s.loader.StoreHigh?)
    ensures var r := Step(s, PagedRom.Loader);
      && r.loader == (if s.loader.StoreLow? then StoreHigh(s.loader.a) else Polling(s.loader.a))
      && r.current == s.current && r.served == s.served && r.timedOut == s.timedOut && r.rom == s.rom
      && r.early == s.early && r.hasty == s.hasty && r.torn == s.torn
  {
    hide PageIndex, HighByte;
  }

  lemma PollEffect(s: Paging)
    requires Shape(s) && s.loader.Polling?
    ensures var r := Step(s, PagedRom.Loader);
      r == if Flag(s.pageH) then s else s.(loader := Loading(s.loader.a))
    ensures Flag(s.pageH) ==>
      Step(s, GiveUp)
        == s.(served := s.served + [Read(s.loader.a, TimedOut, s.early)], loader := Idle, timedOut := true)
  {
    hide Flag;
  }

  lemma LoadEffect(s: Paging)
    requires Shape(s) && s.loader.Loading?
    ensures Offset(s.loader.a) < |s.window|
    ensures var r := Step(s, PagedRom.Loader);
      r == s.(served := s.served + [Read(s.loader.a, Value(s.window[Offset(s.loader.a)]), s.early)], loader := Idle)
  {
    OffsetIs(s.loader.a);
    hide Offset;
  }

  /** What the invariant says of the answer just given. */
  lemma LastAnswer(s: Paging, n: nat)
    requires Inv(s) && n < |s.served|
    ensures SizeOk(s.served[n]) && (!s.torn ==> ValueOk(s.rom, s.served[n]))
    ensures (s.torn ==> s.hasty) && (s.hasty ==> s.timedOut)
  {
    hide Cached, LoaderOk, PoduleOk, Handshake, SizeOk, ValueOk;
  }

  // ---- The podule's side

  const PAGE_L: nat := 0
  const PAGE_H: nat := 1
  const RESET: nat := 2

  /** The whole system with the podule's memory replaced, the podule being at rest. */
  function With(rest: Paging, rom: seq<Byte>, slack: seq<Byte>, window: seq<Byte>, regs: seq<Byte>): Paging
    requires |regs| == REGS_SIZE
  {
    rest.(rom := rom, slack := slack, window := window, pageL := regs[PAGE_L], pageH := regs[PAGE_H],
          reset := regs[RESET], pod := Resting)
  }

  /** The first three registers. */
  lemma PagingRegisters(rest: Paging, rom: seq<Byte>, slack: seq<Byte>, window: seq<Byte>, regs: seq<Byte>)
    requires |regs| == REGS_SIZE
    ensures var s := With(rest, rom, slack, window, regs);
      |regs| == 0x800 && s.pageL == regs[0] && s.pageH == regs[1] && s.reset == regs[2]
  {}

  /** arc_pipe_podule.c. */
  class Firmware {
    /** podule_rom, and the page's worth of memory behind it. */
    const rom: seq<Byte>
    const slack: seq<Byte>
    const window: array<Byte>
    const regs: array<Byte>
    var resetGeneration: nat

    ghost predicate Valid() {
      |slack| == PAGE && window.Length == PAGE && regs.Length == REGS_SIZE && window != regs
    }

    ghost function Of(rest: Paging): (s: Paging)
      requires Valid()
      reads window, regs
      ensures Shape(s) && s.pod.Resting?
    {
      With(rest, rom, slack, window[..], regs[..])
    }

    constructor (rom: seq<Byte>, slack: seq<Byte>)
      requires |slack| == PAGE
      ensures Valid() && this.rom == rom && this.slack == slack
    {
      this.rom, this.slack, resetGeneration := rom, slack, 0;
      window := new Byte[PAGE](_ => 0);
      regs := new Byte[REGS_SIZE](_ => 0);
    }

    /** podule_rom_switch_page: a page that starts past the end leaves the window alone. */
    method SwitchPage(page: nat)
      requires Valid() && page < MAX_PAGES
      modifies window
      ensures window[..] == if page * PAGE < |rom| then PageBytes(rom, slack, page) else old(window[..])
    {
      if page * PAGE < |rom| {
        var memory := rom + slack;
        forall i | 0 <= i < PAGE {
          window[i] := memory[page * PAGE + i];
        }
        assert window[..] == memory[page * PAGE..page * PAGE + PAGE];
      }
    }

    /** podule_poll up to pipe_poll: the page request is answered as a run of the podule's steps
        answers it; a changed reset register asks for pipe_init, once. */
    method PodulePoll(ghost rest: Paging) returns (init: bool)
      requires Valid()
      modifies `resetGeneration, window, regs
      ensures Valid() && Of(rest) == Polled(old(Of(rest)))
      ensures exists k: nat :: PodSteps(old(Of(rest)), k) == Of(rest)
      ensures resetGeneration == regs[RESET] && (init <==> regs[RESET] != old(resetGeneration))
    {
      hide And, PageNumber, Flag, PageBytes;
      ghost var k := PollIsRun(Of(rest));
      if Flag(regs[PAGE_H]) {
        var page := PageNumber(regs[PAGE_H], regs[PAGE_L]);
        PageNumberBound(regs[PAGE_H], regs[PAGE_L]);
        SwitchPage(page);
        regs[PAGE_H] := And(regs[PAGE_H], 0x7f);
      }
      init := regs[RESET] != resetGeneration;
      if init {
        resetGeneration := regs[RESET];
      }
    }
  }
}
