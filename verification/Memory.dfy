/** memcpy on byte sequences, whole and half way. */
module Memory {
  import opened Bits

  /** A block of bytes copied to m[at..]. */
  function PutBlock(m: seq<Byte>, at: nat, data: seq<Byte>): (r: seq<Byte>)
    requires at + |data| <= |m|
    ensures |r| == |m|
  {
    m[..at] + data + m[at + |data|..]
  }

  /** dst with bytes i to len of the block at src[addr] copied to dst[at]. */
  function CopyRest(dst: seq<Byte>, src: seq<Byte>, at: nat, addr: nat, i: nat, len: nat): (r: seq<Byte>)
    requires i <= len && at + len <= |dst| && addr + len <= |src|
    ensures |r| == |dst|
  {
    dst[..at + i] + src[addr + i..addr + len] + dst[at + len..]
  }

  lemma CopyOne(dst: seq<Byte>, src: seq<Byte>, at: nat, addr: nat, i: nat, len: nat)
    requires i <= len && at + len <= |dst| && addr + len <= |src|
    ensures i < len ==>
      CopyRest(dst[at + i := src[addr + i]], src, at, addr, i + 1, len) == CopyRest(dst, src, at, addr, i, len)
    ensures i == len ==> CopyRest(dst, src, at, addr, i, len) == dst
  {}
}
