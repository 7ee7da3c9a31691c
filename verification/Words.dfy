/** 32-bit words as four bytes, least significant first: the C structures, the ARM stores and
    Python's `struct.pack('<I')` all agree on it. */
module Words {
  import opened Bits

  function Le32(x: nat): (b: seq<Byte>)
    ensures |b| == 4
  {
    [x % 0x100, (x / 0x100) % 0x100, (x / 0x1_0000) % 0x100, (x / 0x100_0000) % 0x100]
  }

  function ReadLe32(b: seq<Byte>, at: nat): Word32
    requires at + 4 <= |b|
  {
    b[at] + 0x100 * b[at + 1] as int + 0x1_0000 * b[at + 2] as int + 0x100_0000 * b[at + 3] as int
  }

  lemma Le32Value(x: Word32)
    ensures ReadLe32(Le32(x), 0) == x
  {
    var a, b, c := x / 0x100, x / 0x1_0000, x / 0x100_0000;
    DivSteps(x);
    assert x == 0x100 * a + x % 0x100;
    assert a == 0x100 * b + a % 0x100;
    assert b == 0x100 * c + b % 0x100;
  }

  lemma DivSteps(x: nat)
    ensures x / 0x1_0000 == (x / 0x100) / 0x100
    ensures x / 0x100_0000 == (x / 0x1_0000) / 0x100
  {
    DivModIs(x, 0x1_0000, (x / 0x100) / 0x100, 0x100 * ((x / 0x100) % 0x100) + x % 0x100);
    DivModIs(x, 0x100_0000, (x / 0x1_0000) / 0x100, 0x1_0000 * ((x / 0x1_0000) % 0x100) + x % 0x1_0000);
  }

  lemma ReadLe32At(before: seq<Byte>, x: Word32, after: seq<Byte>)
    ensures ReadLe32(before + Le32(x) + after, |before|) == x
  {
    Le32Value(x);
    var s, n := before + Le32(x) + after, |before|;
    assert s[n] == Le32(x)[0] && s[n + 1] == Le32(x)[1] && s[n + 2] == Le32(x)[2] && s[n + 3] == Le32(x)[3];
  }
}
