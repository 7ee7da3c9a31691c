/** mod_pipe/commands_rawfile.S: the block loop of `pcpl`, with its 32-bit registers and signed
    comparisons. r8 holds the remote length, r5 the file position, r4 the block size. */
module CopyClient {
  import opened Bits
  import opened Wrappers

  const BLOCK: nat := 512

  /** The register as `cmp` with a signed condition reads it. */
  function Signed(r: Word32): int {
    if r < 0x8000_0000 then r else r - WORD_MODULUS
  }

  /** `sub r4, r8, r5` then `movgt r4, #512`. */
  function BlockSize(r8: Word32, r5: Word32): Word32 {
    var r4 := Sub32(r8, r5);
    if Signed(r4) > BLOCK then BLOCK else r4
  }

  /** `add r5, r5, #512`. */
  function Advance(r5: Word32): Word32 { (r5 + BLOCK) % WORD_MODULUS }

  /** `cmp r5, r8` then `blt`. */
  predicate GoesOn(r8: Word32, r5: Word32) { Signed(r5) < Signed(r8) }

  /** r5 on entry to the i-th pass of the loop. */
  function Position(i: nat): Word32 {
    if i == 0 then 0 else Advance(Position(i - 1))
  }

  /** The loop leaves after exactly n passes. */
  predicate StopsAfter(r8: Word32, n: nat) {
    && n >= 1 && !GoesOn(r8, Position(n))
    && forall i {:trigger Position(i)} :: 1 <= i < n ==> GoesOn(r8, Position(i))
  }

  /** The first n requests cover [0, r8) exactly once, in order, in blocks of 1 to 512 bytes. */
  predicate Tiles(r8: Word32, n: nat) {
    && n >= 1
    && (forall i {:trigger Position(i)} :: 0 <= i < n ==>
          && Position(i) == BLOCK * i
          && 1 <= BlockSize(r8, Position(i)) <= BLOCK
          && (i + 1 < n ==> BlockSize(r8, Position(i)) == BLOCK))
    && Position(n - 1) + BlockSize(r8, Position(n - 1)) == r8
  }

  /** The largest length for which the position never passes the sign bit. */
  const MAX_LENGTH: nat := 0x7fff_fe00

  lemma {:induction false} PositionIs(i: nat)
    requires BLOCK * i < WORD_MODULUS
    ensures Position(i) == BLOCK * i
  {
    if i > 0 { PositionIs(i - 1); }
  }

  lemma SizeInRange(r8: Word32, r5: Word32)
    requires r5 < r8 < 0x8000_0000
    ensures BlockSize(r8, r5) == if r8 - r5 > BLOCK then BLOCK else r8 - r5
  {
    assert Sub32(r8, r5) == r8 - r5;
  }

  lemma LoopTiles(r8: Word32, n: nat)
    requires 1 <= r8 <= MAX_LENGTH && n == (r8 + BLOCK - 1) / BLOCK
    ensures StopsAfter(r8, n) && Tiles(r8, n)
  {
    assert BLOCK * (n - 1) < r8 <= BLOCK * n <= MAX_LENGTH;
    forall i {:trigger Position(i)} | 0 <= i <= n
      ensures Position(i) == BLOCK * i
    {
      PositionIs(i);
    }
    forall i {:trigger Position(i)} | 0 <= i < n
      ensures 1 <= BlockSize(r8, Position(i)) <= BLOCK && (i + 1 < n ==> BlockSize(r8, Position(i)) == BLOCK)
    {
      SizeInRange(r8, Position(i));
    }
    SizeInRange(r8, Position(n - 1));
  }

  lemma GoesOnBelowSign(r8: Word32, r5: Word32)
    requires MAX_LENGTH < r8 < 0x8000_0000 && (r5 <= MAX_LENGTH || r5 == 0x8000_0000)
    ensures GoesOn(r8, r5)
  {}

  lemma SizeAtSign(r8: Word32)
    requires MAX_LENGTH < r8 < 0x8000_0000
    ensures BlockSize(r8, 0x8000_0000) > BLOCK
  {
    DivModIs(r8 + 0x8000_0000, WORD_MODULUS, 0, r8 + 0x8000_0000);
  }

  /** Just below 2^31 the position crosses the sign bit before it reaches the length. */
  lemma LoopOverruns(r8: Word32, n: nat)
    requires MAX_LENGTH < r8 < 0x8000_0000
    ensures !(StopsAfter(r8, n) && Tiles(r8, n))
  {
    hide Position, BlockSize, GoesOn;
    var last := 0x40_0000;
    if 1 <= n <= last {
      PositionIs(n);
      GoesOnBelowSign(r8, Position(n));
    } else if n > last {
      PositionIs(last);
      SizeAtSign(r8);
    }
  }

  /** From 2^31 the first comparison already takes the length for a negative number. */
  lemma LengthNegative(r8: Word32, n: nat)
    requires r8 >= 0x8000_0000
    ensures !Tiles(r8, n)
  {
    if n >= 1 {
      assert Position(0) == 0 && Sub32(r8, 0) == r8;
      assert BlockSize(r8, Position(0)) == r8;
    }
  }

  /** The loop stops with its requests tiling the file exactly when the length of a non-empty file
      is at most 2^31 - 512. */
  lemma CopyLoopExact(r8: Word32)
    requires r8 >= 1
    ensures (exists n :: StopsAfter(r8, n) && Tiles(r8, n)) <==> r8 <= MAX_LENGTH
  {
    if r8 <= MAX_LENGTH {
      var n := (r8 + BLOCK - 1) / BLOCK;
      LoopTiles(r8, n);
    } else {
      forall n | StopsAfter(r8, n) && Tiles(r8, n)
        ensures false
      {
        if r8 < 0x8000_0000 { LoopOverruns(r8, n); } else { LengthNegative(r8, n); }
      }
    }
  }

  /** The other end of the loop: a file that does not change, and the requests made of it. */
  class Remote {
    const content: seq<Byte>
    ghost var asked: seq<(nat, nat)>

    constructor (content: seq<Byte>)
      ensures this.content == content && asked == []
    {
      this.content := content;
      asked := [];
    }

    /** One request and its reply; None for a request beyond what a packet or the server's buffer
        holds. */
    method Ask(offset: Word32, size: Word32) returns (block: Option<seq<Byte>>)
      modifies this
      ensures asked == old(asked) + [(offset, size)]
      ensures block
        == if size <= BLOCK && offset + size <= |content| then Some(content[offset..offset + size]) else None
    {
      block := if size <= BLOCK && offset + size <= |content| then Some(content[offset..offset + size]) else None;
      asked := asked + [(offset, size)];
    }
  }

  /** OS_GBPB 1: write bytes at an offset of the local file, extending it if need be. */
  function WriteAt(local: seq<Byte>, offset: nat, bytes: seq<Byte>): seq<Byte> {
    (if offset <= |local| then local[..offset] else local + seq(offset - |local|, _ => 0))
    + bytes + (if offset + |bytes| <= |local| then local[offset + |bytes|..] else [])
  }

  /** The requests that cover the first `done` bytes. */
  ghost predicate Covers(asked: seq<(nat, nat)>, done: nat) {
    && (forall i :: 0 <= i < |asked| ==> asked[i].0 == BLOCK * i && 1 <= asked[i].1 <= BLOCK)
    && (forall i :: 0 <= i < |asked| - 1 ==> asked[i].0 + asked[i].1 == asked[i + 1].0)
    && done == if |asked| == 0 then 0 else asked[|asked| - 1].0 + asked[|asked| - 1].1
  }

  lemma WriteNext(content: seq<Byte>, at: nat, n: nat)
    requires at + n <= |content|
    ensures WriteAt(content[..at], at, content[at..at + n]) == content[..at + n]
  {}

  /** A position of the loop before the sign bit: inside the file, or the first of all. */
  predicate OnCourse(r8: Word32, r5: Word32) {
    r5 % BLOCK == 0 && r5 < 0x8000_0000 && (r5 == 0 || r5 < r8 < 0x8000_0000)
  }

  lemma SizeOnCourse(r8: Word32, r5: Word32)
    requires OnCourse(r8, r5)
    ensures r8 < 0x8000_0000 ==> BlockSize(r8, r5) == if r8 - r5 > BLOCK then BLOCK else r8 - r5
    ensures r8 >= 0x8000_0000 ==> BlockSize(r8, r5) > BLOCK
  {
    if r5 < r8 < 0x8000_0000 {
      SizeInRange(r8, r5);
    } else {
      assert Sub32(r8, r5) == r8;
    }
  }

  lemma NextPosition(r8: Word32, r5: Word32)
    requires OnCourse(r8, r5) && r8 < 0x8000_0000
    ensures var next := Advance(r5);
      && next == r5 + BLOCK <= 0x8000_0000 && next % BLOCK == 0
      && (GoesOn(r8, next) <==> next < r8 || next == 0x8000_0000)
      && (next == 0x8000_0000 ==> r8 > MAX_LENGTH)
  {}

  /** The requests are for one block after the other, each of the size that the loop works out. */
  predicate Asks(asked: seq<(nat, nat)>, r8: Word32) {
    forall i :: 0 <= i < |asked| ==> asked[i] == (512 * i, BlockSize(r8, 512 * i % 0x1_0000_0000))
  }

  lemma AsksNone(r8: Word32)
    ensures Asks([], r8)
  {}

  lemma AsksMore(asked: seq<(nat, nat)>, r8: Word32, r5: Word32)
    requires Asks(asked, r8) && r5 == 512 * |asked|
    ensures Asks(asked + [(r5, BlockSize(r8, r5))], r8)
  {
    hide BlockSize;
  }

  /** pcpl_get_block_loop, for every length that the register can hold: it copies the file if and only
      if the length is at most 2^31 - 512; otherwise it comes to ask for more than a packet holds. */
  method CopyBlocks(remote: Remote, r8: Word32) returns (ok: bool, local: seq<Byte>)
    requires |remote.content| == r8 && remote.asked == []
    modifies remote
    ensures ok <==> r8 <= 0x7fff_fe00
    ensures ok ==> local == remote.content
    ensures 1 <= r8 <= MAX_LENGTH ==> Covers(remote.asked, r8)
    ensures |remote.asked| > 0
    ensures Asks(remote.asked, r8)
    ensures !ok ==> remote.asked[|remote.asked| - 1].1 > 512
  {
    hide WriteAt, BlockSize, Advance, GoesOn, Asks;
    local := [];
    AsksNone(r8);
    var r5: Word32 := 0;
    while true
      invariant r5 == BLOCK * |remote.asked|
      invariant Asks(remote.asked, r8)
      invariant OnCourse(r8, r5) || (r5 == 0x8000_0000 && MAX_LENGTH < r8 < 0x8000_0000)
      invariant OnCourse(r8, r5) ==> local == remote.content[..r5] && Covers(remote.asked, r5)
      decreases 0x8000_0000 - r5
    {
      if OnCourse(r8, r5) { SizeOnCourse(r8, r5); } else { SizeAtSign(r8); }
      var r4 := BlockSize(r8, r5);
      AsksMore(remote.asked, r8, r5);
      var block := remote.Ask(r5, r4);
      if block.None? {
        return false, local;
      }
      NextPosition(r8, r5);
      WriteNext(remote.content, r5, r4);
      local := WriteAt(local, r5, block.value);
      r5 := Advance(r5);
      if !GoesOn(r8, r5) {
        assert remote.content[..r8] == remote.content;
        return true, local;
      }
    }
  }
}
