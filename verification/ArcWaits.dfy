/** What the poll loops of mod_pipe/pipe_packet.S wait for: the others' steps between one load and the
    next, whether they bring it about in time, and conditions on them under which they always do. */
module ArcWaits {
  import opened Bits
  import opened PoduleRegs
  import opened Framing
  import T = TxPipe
  import R = RxPipe

  /** The timeout of both poll loops. */
  const TIMEOUT: nat := 0x10_0000

  /** What the others do after k accesses, from the n-th on. */
  function Gap<A>(others: nat -> seq<A>, n: nat, k: nat): seq<A> {
    if k == 0 then [] else Gap(others, n, k - 1) + others(n + k - 1)
  }

  lemma {:induction false} GapSplits<A>(others: nat -> seq<A>, n: nat, j: nat, k: nat)
    ensures Gap(others, n, j + k) == Gap(others, n, j) + Gap(others, n + j, k)
    decreases k
  {
    if k > 0 { GapSplits(others, n, j, k - 1); }
  }

  lemma GapOne<A>(others: nat -> seq<A>, n: nat)
    ensures Gap(others, n, 1) == others(n)
  {
    assert Gap(others, n, 0) == [] && [] + others(n) == others(n);
  }

  // ---- Transmit

  ghost predicate TxOthers(others: nat -> seq<T.Action>) { forall n :: T.Others(others(n)) }

  lemma {:induction false} TxGapOthers(others: nat -> seq<T.Action>, n: nat, k: nat)
    requires TxOthers(others)
    ensures T.Others(Gap(others, n, k))
    decreases k
  {
    if k > 0 { TxGapOthers(others, n, k - 1); }
  }

  /** The state after k accesses of the Archimedes, each followed by what the others then do. */
  function TxAfter(others: nat -> seq<T.Action>, s: T.Tx, n: nat, k: nat): (r: T.Tx)
    requires T.Shape(s)
    ensures T.Shape(r)
    decreases k
  {
    if k == 0 then s else T.Run(T.ArcStep(TxAfter(others, s, n, k - 1)), others(n + k - 1))
  }

  lemma {:induction false} TxAfterAdd(others: nat -> seq<T.Action>, s: T.Tx, n: nat, j: nat, k: nat)
    requires T.Shape(s)
    ensures TxAfter(others, s, n, j + k) == TxAfter(others, TxAfter(others, s, n, j), n + j, k)
    decreases k
  {
    hide T.ArcStep, T.Run, T.Shape;
    if k > 0 { TxAfterAdd(others, s, n, j, k - 1); }
  }

  /** Bit 7 of the head descriptor's last byte, which the loop tests. */
  predicate TxBusy(s: T.Tx)
    requires T.Shape(s)
  {
    TopBitSet(s.descrs[s.head].b3)
  }

  /** It is set as long as the call has not been retired. */
  lemma BusyIffPending(s: T.Tx)
    requires T.Inv(s) && s.arc.Polling?
    ensures TxBusy(s) <==> T.Pending(s)
    ensures T.Pending(s) <==> s.retired != |s.calls|
  {
    if T.Pending(s) { T.ReadyTop(T.WordFor(s.arc.call)); }
    hide StoreWord, TopBitSet, T.WordFor, T.ArcProgress, T.PodProgress, Slot;
  }

  lemma BusyWaits(s: T.Tx)
    requires T.Inv(s) && s.arc.Polling? && TxBusy(s)
    ensures T.Shape(s) && T.ArcStep(s) == s
  {
    BusyIffPending(s);
    T.ArcFrozen(s);
    hide T.Counters, T.OnlyHeadReady, T.LastCall, T.Published, T.ArcProgress, T.PodProgress;
  }

  /** Once retired, retired. */
  lemma {:induction false} RetiredStays(s: T.Tx, acts: seq<T.Action>)
    requires T.Inv(s) && T.Shape(s) && s.arc.Polling? && T.Others(acts)
    ensures var r := T.Run(s, acts);
      T.Inv(r) && r.arc == s.arc && r.calls == s.calls && r.retired >= s.retired
    decreases |acts|
  {
    hide T.Inv, T.Step, T.Shape;
    if |acts| > 0 {
      T.StepInv(s, acts[0]);
      T.OtherKeeps(s, acts[0]);
      RetiresOnly(s, acts[0]);
      RetiredStays(T.Step(s, acts[0]), acts[1..]);
    }
  }

  lemma RetiresOnly(s: T.Tx, a: T.Action)
    requires T.Shape(s) && (a.Pod? || a.Usb?)
    ensures T.Step(s, a).retired >= s.retired
  {
    if a.Pod? { T.PodFrozen(s, a.accept); }
    hide T.PodStep;
  }

  /** While every load finds the bit set, the Archimedes changes nothing: the others' steps alone lead
      from the first load to the last. */
  lemma {:induction false} BusyGap(others: nat -> seq<T.Action>, s: T.Tx, n: nat, k: nat)
    requires T.Inv(s) && T.Shape(s) && s.arc.Polling? && TxOthers(others)
    requires forall i :: 0 <= i < k ==> TxBusy(TxAfter(others, s, n, i))
    ensures var r := TxAfter(others, s, n, k);
      r == T.Run(s, Gap(others, n, k)) && T.Inv(r) && r.arc == s.arc && r.calls == s.calls && r.head == s.head
    decreases k
  {
    hide T.Inv, T.ArcStep, TxBusy, T.Shape;
    if k == 0 {
      assert T.Run(s, []) == s;
    } else {
      hide T.Run;
      BusyGap(others, s, n, k - 1);
      var t := TxAfter(others, s, n, k - 1);
      assert TxBusy(t);
      BusyWaits(t);
      assert T.Others(others(n + k - 1));
      RetiredStays(t, others(n + k - 1));
      T.OthersKeep(t, others(n + k - 1));
      T.RunAppend(s, Gap(others, n, k - 1), others(n + k - 1));
    }
  }

  /** The loop leaves before its last load exactly if the others' steps until then retire the call. */
  lemma DoneInTime(others: nat -> seq<T.Action>, s: T.Tx, n: nat, k: nat, m: nat)
    requires T.Inv(s) && T.Shape(s) && s.arc.Polling? && TxOthers(others) && k <= m
    requires forall i :: 0 <= i < k ==> TxBusy(TxAfter(others, s, n, i))
    ensures !TxBusy(TxAfter(others, s, n, k)) ==> T.Run(s, Gap(others, n, m)).retired == |s.calls|
    ensures k == m && TxBusy(TxAfter(others, s, n, k)) ==> T.Run(s, Gap(others, n, m)).retired != |s.calls|
  {
    hide T.Inv, TxBusy, T.Run, T.Shape, T.Others, TxAfter, Gap, T.Pending;
    BusyGap(others, s, n, k);
    var r := TxAfter(others, s, n, k);
    BusyIffPending(r);
    if !TxBusy(r) {
      GapSplits(others, n, k, m - k);
      TxGapOthers(others, n + k, m - k);
      T.RunAppend(s, Gap(others, n, k), Gap(others, n + k, m - k));
      RetiredStays(r, Gap(others, n + k, m - k));
      var q := T.Run(s, Gap(others, n, m));
      RetiredBound(q);
    }
  }

  lemma RetiredBound(s: T.Tx)
    requires T.Inv(s) && s.arc.Polling?
    ensures s.retired <= |s.calls|
  {
    hide T.OnlyHeadReady, T.Published, T.ArcProgress, T.PodProgress, Slot;
  }

  // ---- Receive

  ghost predicate RxOthers(others: nat -> seq<R.Action>) { forall n :: R.Others(others(n)) }

  lemma {:induction false} RxGapOthers(others: nat -> seq<R.Action>, n: nat, k: nat)
    requires RxOthers(others)
    ensures R.Others(Gap(others, n, k))
    decreases k
  {
    if k > 0 { RxGapOthers(others, n, k - 1); }
  }

  function RxAfter(others: nat -> seq<R.Action>, s: R.Rx, n: nat, k: nat): (r: R.Rx)
    requires R.Shape(s)
    ensures R.Shape(r)
    decreases k
  {
    if k == 0 then s else R.Run(R.ArcStep(RxAfter(others, s, n, k - 1)), others(n + k - 1))
  }

  lemma {:induction false} RxAfterAdd(others: nat -> seq<R.Action>, s: R.Rx, n: nat, j: nat, k: nat)
    requires R.Shape(s)
    ensures RxAfter(others, s, n, j + k) == RxAfter(others, RxAfter(others, s, n, j), n + j, k)
    decreases k
  {
    hide R.ArcStep, R.Run, R.Shape;
    if k > 0 { RxAfterAdd(others, s, n, j, k - 1); }
  }

  /** Bit 7 of the tail descriptor's last byte. */
  predicate RxReady(s: R.Rx)
    requires R.Shape(s)
  {
    TopBitSet(s.descrs[s.tail].b3)
  }

  /** It is set exactly while a packet is in flight. */
  lemma ReadyIffFlight(s: R.Rx)
    requires R.Inv(s)
    ensures RxReady(s) <==> R.InFlight(s)
  {
    if R.InFlight(s) {
      assert s.tail == s.last by { hide R.OnlyLastReady, R.Delivered, R.ArcHolds, R.Conserved, R.PodProgress, Slot; }
      R.LastReadyIffFlight(s);
      ReadyByte(s.descrs[s.last]);
    }
    hide R.Conserved, R.PodProgress, R.Counters, R.Delivered, R.ArcHolds, IsReady, TopBitSet, LoadWord;
  }

  lemma UnreadyWaits(s: R.Rx)
    requires R.Shape(s) && s.arc.Polling? && !RxReady(s)
    ensures R.ArcStep(s) == s
  {}

  /** Until the Archimedes takes it, a packet in flight stays so. */
  lemma {:induction false} FlightStays(s: R.Rx, acts: seq<R.Action>)
    requires R.Inv(s) && R.Shape(s) && R.Others(acts)
    ensures var r := R.Run(s, acts);
      R.Inv(r) && r.received == s.received && r.arc == s.arc && (R.InFlight(s) ==> R.InFlight(r))
    decreases |acts|
  {
    hide R.Inv, R.Step, R.Shape;
    if |acts| > 0 {
      R.StepInv(s, acts[0]);
      R.OtherKeeps(s, acts[0]);
      AcceptedGrows(s, acts[0]);
      AtMostOne(R.Step(s, acts[0]));
      FlightStays(R.Step(s, acts[0]), acts[1..]);
    }
  }

  lemma AtMostOne(s: R.Rx)
    requires R.Inv(s)
    ensures |s.accepted| <= |s.received| + 1
  {
    hide R.Conserved, R.Counters, R.Flight, R.PodProgress;
  }

  lemma AcceptedGrows(s: R.Rx, a: R.Action)
    requires R.Shape(s) && !a.Arc? && !a.Receive?
    ensures |R.Step(s, a).accepted| >= |s.accepted|
  {
    hide FrameLen, StoreWord, R.PublishedWord, NextSlot, LoadWord, IsReady;
  }

  lemma {:induction false} UnreadyGap(others: nat -> seq<R.Action>, s: R.Rx, n: nat, k: nat)
    requires R.Inv(s) && R.Shape(s) && s.arc.Polling? && RxOthers(others)
    requires forall i :: 0 <= i < k ==> !RxReady(RxAfter(others, s, n, i))
    ensures var r := RxAfter(others, s, n, k);
      r == R.Run(s, Gap(others, n, k)) && R.Inv(r) && r.arc == s.arc && r.tail == s.tail && r.received == s.received
    decreases k
  {
    hide R.Inv, R.ArcStep, RxReady, R.Shape;
    if k == 0 {
      assert R.Run(s, []) == s;
    } else {
      hide R.Run;
      UnreadyGap(others, s, n, k - 1);
      var t := RxAfter(others, s, n, k - 1);
      assert !RxReady(t);
      UnreadyWaits(t);
      assert R.Others(others(n + k - 1));
      FlightStays(t, others(n + k - 1));
      R.OthersKeep(t, others(n + k - 1));
      R.RunAppend(s, Gap(others, n, k - 1), others(n + k - 1));
    }
  }

  /** The loop leaves before its last load exactly if the others' steps until then bring a packet. */
  lemma ReadyInTime(others: nat -> seq<R.Action>, s: R.Rx, n: nat, k: nat, m: nat)
    requires R.Inv(s) && R.Shape(s) && s.arc.Polling? && RxOthers(others) && k <= m
    requires forall i :: 0 <= i < k ==> !RxReady(RxAfter(others, s, n, i))
    ensures RxReady(RxAfter(others, s, n, k)) ==> R.InFlight(R.Run(s, Gap(others, n, m)))
    ensures k == m && !RxReady(RxAfter(others, s, n, k)) ==> !R.InFlight(R.Run(s, Gap(others, n, m)))
  {
    hide R.Inv, RxReady, R.Run, R.Shape, R.Others, RxAfter, Gap, R.InFlight;
    UnreadyGap(others, s, n, k);
    var r := RxAfter(others, s, n, k);
    ReadyIffFlight(r);
    if RxReady(r) {
      GapSplits(others, n, k, m - k);
      RxGapOthers(others, n + k, m - k);
      R.RunAppend(s, Gap(others, n, k), Gap(others, n + k, m - k));
      FlightStays(r, Gap(others, n + k, m - k));
    }
  }
}
