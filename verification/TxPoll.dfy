/** The transmit half of one call of pipe_poll, run without interruption: it is a run of the podule's
    steps in TxPipe, and what it does for a transfer in progress and with the link down. */
module TxPoll {
  import opened Bits
  import opened PoduleRegs
  import opened Memory
  import opened TxPipe

  /** pipe_tx_done. */
  function Retire(s: Tx): (r: Tx)
    requires Shape(s)
    ensures Shape(r)
  {
    s.(descrs := s.descrs[s.tail := StoreWord(ClearReady(LoadWord(s.descrs[s.tail])))],
       tail := NextSlot(s.tail, s.ringBits), retired := s.retired + 1, pod := Resting)
  }

  function RetireIfDone(s: Tx): (r: Tx)
    requires Shape(s)
    ensures Shape(r)
  {
    if s.pod.Retiring? then Retire(s) else s
  }

  /** The whole memcpy of pipe_tx_start. */
  function Copied(s: Tx): (r: Tx)
    requires Shape(s) && s.pod.Copying?
    ensures Shape(r) && r.pod.Copying? && r.pod.len == s.pod.len
  {
    var len, addr := s.pod.len, s.pod.addr;
    s.(txBuf := CopyRest(s.txBuf, s.buf, HEADER_SIZE, addr, s.pod.i, len), pod := Copying(len, addr, len))
  }

  /** pipe_tx_start. */
  function StartWhole(s: Tx, accept: nat): (r: Tx)
    requires Shape(s)
    ensures Shape(r)
  {
    var w := LoadWord(s.descrs[s.tail]);
    var t := Start(s, CidField(w) % 0x100, SizeField(w), AddrField(w));
    if t.pod.Copying? then RetireIfDone(Launch(Copied(t), t.pod.len, accept)) else RetireIfDone(t)
  }

  /** The transmit half of pipe_poll. */
  function PollTx(s: Tx, accept: nat): (r: Tx)
    requires Shape(s) && s.pod.Resting?
    ensures Shape(r) && r.pod.Resting?
  {
    var t := s.(pod := Sampled(s.connected));
    if s.ongoing then
      if s.connected then RetireIfDone(Continue(t, accept)) else s.(ongoing := false)
    else if !IsReady(LoadWord(s.descrs[s.tail])) then s
    else if s.connected then StartWhole(t, accept)
    else Retire(s.(pod := Retiring))
  }

  /** k steps of the podule alone. */
  function PodSteps(s: Tx, accept: nat, k: nat): (r: Tx)
    requires Shape(s)
    ensures Shape(r)
    decreases k
  {
    if k == 0 then s else PodSteps(PodStep(s, accept), accept, k - 1)
  }

  lemma {:induction false} PodStepsAdd(s: Tx, accept: nat, j: nat, k: nat)
    requires Shape(s)
    ensures PodSteps(s, accept, j + k) == PodSteps(PodSteps(s, accept, j), accept, k)
    decreases j
  {
    hide PodStep;
    if j > 0 { PodStepsAdd(PodStep(s, accept), accept, j - 1, k); }
  }

  lemma CopyStepIs(s: Tx, accept: nat)
    requires Shape(s) && s.pod.Copying? && s.pod.i < s.pod.len
    ensures PodStep(s, accept)
      == s.(txBuf := s.txBuf[HEADER_SIZE + s.pod.i := s.buf[s.pod.addr + s.pod.i]],
            pod := Copying(s.pod.len, s.pod.addr, s.pod.i + 1))
  {}

  lemma CopiedStep(s: Tx, accept: nat)
    requires Shape(s) && s.pod.Copying?
    ensures s.pod.i < s.pod.len ==>
      var t := PodStep(s, accept);
      t.pod.Copying? && t.pod.len == s.pod.len && t.pod.i == s.pod.i + 1 && Copied(t) == Copied(s)
    ensures s.pod.i == s.pod.len ==> Copied(s) == s
  {
    var len, addr, i := s.pod.len, s.pod.addr, s.pod.i;
    CopyOne(s.txBuf, s.buf, HEADER_SIZE, addr, i, len);
    if i < len { CopyStepIs(s, accept); }
    hide PodStep, CopyRest;
  }

  lemma {:induction false} CopySteps(s: Tx, accept: nat, n: nat)
    requires Shape(s) && s.pod.Copying? && n == s.pod.len - s.pod.i
    ensures PodSteps(s, accept, n) == Copied(s)
    decreases n
  {
    CopiedStep(s, accept);
    hide PodStep, Copied;
    if n > 0 { CopySteps(PodStep(s, accept), accept, n - 1); }
  }

  lemma RetireSteps(s: Tx, accept: nat)
    requires Shape(s) && s.pod.Retiring?
    ensures PodSteps(s, accept, 3) == Retire(s)
  {
    hide LoadWord, StoreWord, ClearReady, NextSlot;
    var t := PodStep(s, accept);
    var u := PodStep(t, accept);
    assert PodSteps(s, accept, 3) == PodSteps(t, accept, 2) == PodSteps(u, accept, 1) == PodStep(u, accept);
  }

  lemma RetireIfDoneSteps(s: Tx, accept: nat) returns (k: nat)
    requires Shape(s)
    ensures PodSteps(s, accept, k) == RetireIfDone(s)
  {
    if s.pod.Retiring? { RetireSteps(s, accept); k := 3; } else { k := 0; }
  }

  lemma StartSteps(s: Tx, accept: nat) returns (k: nat)
    requires Shape(s) && s.pod.Sampled? && s.pod.up && !s.ongoing && IsReady(LoadWord(s.descrs[s.tail]))
    ensures PodSteps(s, accept, k) == StartWhole(s, accept)
  {
    hide LoadWord, IsReady, SizeField, AddrField, CidField, Start, Launch, Copied, RetireIfDone, CopyRest;
    var w := LoadWord(s.descrs[s.tail]);
    var t := Start(s, CidField(w) % 0x100, SizeField(w), AddrField(w));
    assert PodSteps(s, accept, 1) == PodStep(s, accept) == t;
    hide PodStep, PodSteps;
    if t.pod.Copying? {
      var len := t.pod.len - t.pod.i;
      CopySteps(t, accept, len);
      var c := Copied(t);
      CopiedLaunches(t, accept);
      var j := RetireIfDoneSteps(Launch(c, c.pod.len, accept), accept);
      PodStepsAdd(c, accept, 1, j);
      PodStepsAdd(t, accept, len, 1 + j);
      PodStepsAdd(s, accept, 1, len + (1 + j));
      k := 1 + (len + (1 + j));
    } else {
      var j := RetireIfDoneSteps(t, accept);
      PodStepsAdd(s, accept, 1, j);
      k := 1 + j;
    }
  }

  lemma CopiedLaunches(t: Tx, accept: nat)
    requires Shape(t) && t.pod.Copying?
    ensures PodSteps(Copied(t), accept, 1) == Launch(Copied(t), t.pod.len, accept)
  {
    hide Launch;
    assert PodSteps(Copied(t), accept, 1) == PodStep(Copied(t), accept);
  }

  lemma TwoSteps(s: Tx, accept: nat)
    requires Shape(s) && s.pod.Resting?
    ensures PodSteps(s, accept, 1) == s.(pod := Sampled(s.connected))
    ensures PodSteps(s, accept, 2) == PodStep(s.(pod := Sampled(s.connected)), accept)
  {
    var t := s.(pod := Sampled(s.connected));
    assert PodStep(s, accept) == t;
    hide PodStep;
    assert PodSteps(s, accept, 2) == PodSteps(t, accept, 1);
    assert PodSteps(t, accept, 1) == PodSteps(PodStep(t, accept), accept, 0);
  }

  lemma SecondStep(s: Tx, accept: nat)
    requires Shape(s) && s.pod.Resting?
    ensures var t := s.(pod := Sampled(s.connected));
      PodStep(t, accept) ==
        if s.ongoing then (if s.connected then Continue(t, accept) else s.(ongoing := false))
        else CheckRegisters(t, s.connected)
    ensures !IsReady(LoadWord(s.descrs[s.tail])) ==> CheckRegisters(s.(pod := Sampled(s.connected)), s.connected) == s
    ensures IsReady(LoadWord(s.descrs[s.tail])) ==>
      CheckRegisters(s.(pod := Sampled(s.connected)), false) == s.(pod := Retiring)
  {
    hide LoadWord, IsReady, Start, Continue;
  }

  lemma PollContinues(s: Tx, accept: nat) returns (k: nat)
    requires Shape(s) && s.pod.Resting? && s.ongoing && s.connected
    ensures PollTx(s, accept) == PodSteps(s, accept, k)
  {
    TwoSteps(s, accept);
    SecondStep(s, accept);
    hide LoadWord, IsReady, Continue, RetireIfDone, Retire, PodStep, PodSteps, CheckRegisters, StartWhole;
    var u := Continue(s.(pod := Sampled(s.connected)), accept);
    var j := RetireIfDoneSteps(u, accept);
    k := Then(s, u, accept, 2, j);
  }

  lemma Then(s: Tx, u: Tx, accept: nat, i: nat, j: nat) returns (k: nat)
    requires Shape(s) && Shape(u) && PodSteps(s, accept, i) == u
    ensures PodSteps(s, accept, k) == PodSteps(u, accept, j)
  {
    hide PodSteps, PodStep;
    PodStepsAdd(s, accept, i, j);
    k := i + j;
  }

  lemma PollStarts(s: Tx, accept: nat) returns (k: nat)
    requires Shape(s) && s.pod.Resting? && !s.ongoing && s.connected && IsReady(LoadWord(s.descrs[s.tail]))
    ensures PollTx(s, accept) == PodSteps(s, accept, k)
  {
    TwoSteps(s, accept);
    hide LoadWord, IsReady, PodStep, PodSteps, StartWhole;
    var t := s.(pod := Sampled(s.connected));
    var j := StartSteps(t, accept);
    PodStepsAdd(s, accept, 1, j);
    k := 1 + j;
  }

  lemma PollDiscards(s: Tx, accept: nat)
    requires Shape(s) && s.pod.Resting? && !s.ongoing && !s.connected && IsReady(LoadWord(s.descrs[s.tail]))
    ensures PollTx(s, accept) == PodSteps(s, accept, 5)
  {
    TwoSteps(s, accept);
    SecondStep(s, accept);
    hide LoadWord, IsReady, PodStep, PodSteps, Retire, CheckRegisters;
    RetireSteps(s.(pod := Retiring), accept);
    PodStepsAdd(s, accept, 2, 3);
  }

  /** One uninterrupted call of pipe_poll is a run of the podule's steps, so everything proved
      of the interleaved machine holds of it. */
  lemma PollIsRun(s: Tx, accept: nat) returns (k: nat)
    requires Shape(s) && s.pod.Resting?
    ensures PollTx(s, accept) == PodSteps(s, accept, k)
  {
    if s.ongoing && s.connected {
      k := PollContinues(s, accept);
    } else if s.ongoing || !IsReady(LoadWord(s.descrs[s.tail])) {
      TwoSteps(s, accept);
      SecondStep(s, accept);
      hide LoadWord, IsReady, PodStep, PodSteps, CheckRegisters;
      k := 2;
    } else if s.connected {
      k := PollStarts(s, accept);
    } else {
      PollDiscards(s, accept);
      k := 5;
    }
  }

  lemma {:induction false} PodStepsInv(s: Tx, accept: nat, k: nat)
    requires Inv(s)
    ensures Inv(PodSteps(s, accept, k))
    decreases k
  {
    if k > 0 {
      PodInv(s, accept);
      PodStepsInv(PodStep(s, accept), accept, k - 1);
    }
  }

  lemma PollInvariant(s: Tx, accept: nat)
    requires Inv(s) && s.pod.Resting?
    ensures Inv(PollTx(s, accept))
  {
    var k := PollIsRun(s, accept);
    PodStepsInv(s, accept, k);
  }

  /** With the link down, a published packet is retired by the next poll, or by the one after it
      if a transfer has to be abandoned first. */
  lemma DownDrains(s: Tx, n: nat, m: nat)
    requires Inv(s) && s.pod.Resting? && !s.connected && Pending(s)
    ensures var r := PollTx(s, n);
      var q := if s.ongoing then PollTx(r, m) else r;
      q.retired == s.retired + 1 && q.wire == s.wire && q.pod.Resting?
  {
    SampleInv(s);
    hide LoadWord, IsReady, StoreWord, ClearReady, NextSlot, WordFor, Slot;
  }

  function PollsTx(s: Tx, accepts: seq<nat>): (r: Tx)
    requires Shape(s) && s.pod.Resting?
    ensures Shape(r) && r.pod.Resting?
    decreases |accepts|
  {
    if |accepts| == 0 then s else PollsTx(PollTx(s, accepts[0]), accepts[1..])
  }

  /** What is still owed to the link for the transfer in progress. */
  function Owed(s: Tx): nat
    requires Shape(s)
  {
    if s.ongoing then s.total - s.pos else 0
  }

  /** The wire as it will be when the transfer in progress is over. */
  function Due(s: Tx): seq<Byte>
    requires Shape(s)
  {
    if s.ongoing then s.wire + s.txBuf[s.pos..s.total] else s.wire
  }

  /** One poll moved the transfer of s forward, or ended it. */
  predicate Forward(s: Tx, r: Tx)
    requires Shape(s) && Shape(r)
  {
    && r.connected == s.connected && Due(r) == Due(s)
    && (if r.ongoing then r.pos < r.total && Owed(r) < Owed(s) && r.retired == s.retired
        else r.retired == s.retired + 1)
  }

  lemma ContinueDue(s: Tx, accept: nat)
    requires Shape(s) && s.ongoing && s.pos < s.total
    ensures Due(Continue(s, accept)) == Due(s)
  {
    Rejoin(s.wire, s.txBuf, s.pos, s.pos + Min(accept, s.total - s.pos), s.total);
  }

  lemma ContinueForward(s: Tx, accept: nat)
    requires Shape(s) && s.ongoing && s.pos < s.total && accept >= 1
    ensures var u := Continue(s, accept);
      && Due(u) == Due(s) && PoduleOnly(s, u)
      && (u.ongoing <==> !u.pod.Retiring?) && (u.ongoing ==> u.pos < u.total && Owed(u) < Owed(s))
  {
    ContinueDue(s, accept);
    hide Due;
  }

  lemma Rejoin<T>(before: seq<T>, t: seq<T>, i: nat, j: nat, k: nat)
    requires i <= j <= k <= |t|
    ensures (before + t[i..j]) + t[j..k] == before + t[i..k]
    ensures j == k ==> before + t[i..j] == before + t[i..k]
  {}

  lemma RetireForward(u: Tx)
    requires Shape(u)
    ensures var r := RetireIfDone(u);
      && r.connected == u.connected && r.ongoing == u.ongoing && Due(r) == Due(u) && Owed(r) == Owed(u)
      && r.pos == u.pos && r.total == u.total
      && r.retired == if u.pod.Retiring? then u.retired + 1 else u.retired
  {
    hide LoadWord, StoreWord, ClearReady, NextSlot;
  }

  lemma ContinueProgress(s: Tx, accept: nat)
    requires Shape(s) && s.pod.Resting? && s.ongoing && s.pos < s.total && s.connected && accept >= 1
    ensures Forward(s, PollTx(s, accept))
  {
    var t := s.(pod := Sampled(true));
    assert Due(t) == Due(s);
    ContinueForward(t, accept);
    RetireForward(Continue(t, accept));
    hide Continue, RetireIfDone, Due, IsReady, LoadWord, StartWhole, Retire;
  }

  lemma PollsCons(s: Tx, accepts: seq<nat>, k: nat)
    requires Shape(s) && s.pod.Resting? && k < |accepts|
    ensures PollsTx(s, accepts[..k + 1]) == PollsTx(PollTx(s, accepts[0]), accepts[1..][..k])
  {
    hide PollTx;
    assert accepts[..k + 1][1..] == accepts[1..][..k] && accepts[..k + 1][0] == accepts[0];
  }

  /** A transfer in progress on a live link is over, with exactly its owed bytes sent and its
      descriptor retired once, after at most as many byte-accepting polls as it owes bytes. */
  lemma {:induction false} TransferEnds(s: Tx, accepts: seq<nat>) returns (k: nat)
    requires Shape(s) && s.pod.Resting? && s.ongoing && s.pos < s.total && s.connected
    requires |accepts| >= Owed(s) && forall i :: 0 <= i < |accepts| ==> accepts[i] >= 1
    ensures k <= Owed(s) && k <= |accepts|
    ensures var r := PollsTx(s, accepts[..k]);
      !r.ongoing && r.retired == s.retired + 1 && r.wire == Due(s)
    decreases Owed(s)
  {
    ContinueProgress(s, accepts[0]);
    var r := PollTx(s, accepts[0]);
    hide PollTx, Shape;
    if r.ongoing {
      k := TransferEnds(r, accepts[1..]);
    } else {
      k := 0;
    }
    PollsCons(s, accepts, k);
    k := k + 1;
  }
}
