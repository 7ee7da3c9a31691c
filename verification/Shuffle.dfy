/** Both reassemblers, having consumed the frame at the front of their buffer, move what follows
    it to the bottom. The byte count is an unsigned 32-bit difference. The source subtracts the
    position from the frame's end; its comment asks for the end subtracted from the position. */
module Shuffle {
  import opened Bits

  datatype Form = AsWritten | Intended

  datatype Moved = Moved(bytes: seq<Byte>, pos: nat) | OutOfBounds

  /** The `excess` variable. */
  function Excess(form: Form, pos: Word32, end: Word32): Word32 {
    match form
    case AsWritten => Sub32(end, pos)
    case Intended => Sub32(pos, end)
  }

  /** `memmove(&buf[0], &buf[end], excess)`, then `pos = excess`. A count that runs past the
      array is undefined behaviour in C. */
  function MoveExcess(form: Form, buf: seq<Byte>, pos: Word32, end: Word32): Moved {
    var n := Excess(form, pos, end);
    if end + n > |buf| then OutOfBounds else Moved(buf[end..end + n] + buf[n..], n)
  }

  /** What the comment asks for. */
  predicate MovesExcess(buf: seq<Byte>, pos: nat, end: nat, m: Moved)
    requires end <= pos <= |buf|
  {
    m.Moved? && |m.bytes| == |buf| && m.pos == pos - end && m.bytes[..m.pos] == buf[end..pos]
  }

  /** Whenever there is something to move, in a buffer of any realistic size, the move is the one
      described exactly when the subtraction has the intended direction; as written it always
      runs out of the array. */
  lemma ShuffleExact(form: Form, buf: seq<Byte>, pos: Word32, end: Word32)
    requires end < pos <= |buf| <= 0x4000_0000
    ensures MovesExcess(buf, pos, end, MoveExcess(form, buf, pos, end)) <==> form.Intended?
    ensures MoveExcess(form, buf, pos, end).OutOfBounds? <==> form.AsWritten?
  {
    assert (end - pos) % WORD_MODULUS == WORD_MODULUS + (end - pos);
    assert (pos - end) % WORD_MODULUS == pos - end;
  }
}
