/** The server's reassembly over a list of reads, for any stream whatsoever: when the subtraction as
    written fails, and what has been dispatched when it has not. */
module ServerReads {
  import opened Bits
  import opened Framing
  import opened Shuffle
  import opened Server
  import T = TxPipe
  import PipeRuns

  /** How far the stream has been read, the bytes held, and the packets dispatched. */
  datatype Reader = Reader(read: nat, held: seq<Byte>, dispatched: seq<Packet>, faulted: bool)

  predicate InStream(stream: seq<Byte>, r: Reader) { r.read <= |stream| && |r.held| <= BUFFER_SIZE }

  /** What is held after a read that returns at most n bytes. */
  function Gathered(stream: seq<Byte>, r: Reader, n: nat): (held: seq<Byte>)
    requires InStream(stream, r)
    ensures |held| <= BUFFER_SIZE
  {
    r.held + stream[r.read..r.read + Taken(stream, r, n)]
  }

  function Taken(stream: seq<Byte>, r: Reader, n: nat): nat
    requires InStream(stream, r)
  {
    Min(Min(n, |stream| - r.read), BUFFER_SIZE - |r.held|)
  }

  function ReadOnce(form: Form, stream: seq<Byte>, r: Reader, n: nat): (q: Reader)
    requires InStream(stream, r)
    ensures InStream(stream, q)
  {
    if r.faulted then r
    else
      var held := Gathered(stream, r, n);
      var a := Reassemble(form, held);
      DecodeConserves(held, NEED);
      Reader(r.read + Taken(stream, r, n), a.rest, r.dispatched + a.packets, a.faulted)
  }

  function Reads(form: Form, stream: seq<Byte>, r: Reader, ns: seq<nat>): (q: Reader)
    requires InStream(stream, r)
    ensures InStream(stream, q)
    decreases |ns|
  {
    if |ns| == 0 then r else Reads(form, stream, ReadOnce(form, stream, r, ns[0]), ns[1..])
  }

  /** No read leaves bytes of a second frame behind a whole one. */
  predicate NoneSurplus(form: Form, stream: seq<Byte>, r: Reader, ns: seq<nat>)
    requires InStream(stream, r)
    decreases |ns|
  {
    |ns| > 0 ==>
      && !Surplus(Gathered(stream, r, ns[0]))
      && NoneSurplus(form, stream, ReadOnce(form, stream, r, ns[0]), ns[1..])
  }

  const AT_START: Reader := Reader(0, [], [], false)

  /** Unless the reader has failed, it has decoded exactly what it has read. */
  predicate Decoding(stream: seq<Byte>, r: Reader) {
    InStream(stream, r) && (!r.faulted ==> Decode(stream[..r.read], NEED) == Decoded(r.dispatched, r.held))
  }

  lemma ReadDecodes(form: Form, stream: seq<Byte>, r: Reader, n: nat)
    requires Decoding(stream, r)
    ensures Decoding(stream, ReadOnce(form, stream, r, n))
    ensures ReadOnce(form, stream, r, n).faulted <==> r.faulted || (form.AsWritten? && Surplus(Gathered(stream, r, n)))
  {
    hide Decode, Surplus;
    if !r.faulted {
      var m := Taken(stream, r, n);
      var chunk := stream[r.read..r.read + m];
      DecodeAppend(stream[..r.read], chunk, NEED);
      assert stream[..r.read + m] == stream[..r.read] + chunk;
    }
  }

  lemma {:induction false} Stuck(form: Form, stream: seq<Byte>, r: Reader, ns: seq<nat>)
    requires InStream(stream, r) && r.faulted
    ensures Reads(form, stream, r, ns) == r
    decreases |ns|
  {
    if |ns| > 0 { Stuck(form, stream, r, ns[1..]); }
  }

  lemma {:induction false} ReadsDecode(form: Form, stream: seq<Byte>, r: Reader, ns: seq<nat>)
    requires Decoding(stream, r) && !r.faulted
    ensures var q := Reads(form, stream, r, ns);
      Decoding(stream, q) && (q.faulted <==> form.AsWritten? && !NoneSurplus(form, stream, r, ns))
    decreases |ns|
  {
    hide Decode, Surplus, ReadOnce, Gathered;
    if |ns| > 0 {
      ReadDecodes(form, stream, r, ns[0]);
      var t := ReadOnce(form, stream, r, ns[0]);
      if t.faulted { Stuck(form, stream, t, ns[1..]); } else { ReadsDecode(form, stream, t, ns[1..]); }
    }
  }

  /** For any stream of bytes and any list of reads: the server runs into the subtraction if and only if it is
      as written and some read leaves bytes of a second frame behind a whole one; if it does not, it has
      dispatched and holds exactly what the decoder finds in the bytes read. */
  lemma ReadsFaultExact(form: Form, stream: seq<Byte>, ns: seq<nat>)
    ensures var r := Reads(form, stream, AT_START, ns);
      && (r.faulted <==> form.AsWritten? && !NoneSurplus(form, stream, AT_START, ns))
      && (!r.faulted ==> Decode(stream[..r.read], NEED) == Decoded(r.dispatched, r.held))
  {
    ReadsDecode(form, stream, AT_START, ns);
  }

  /** From pipe_packet_tx to the server's buffer, whoever calls it: whatever the interleaving, the partial
      writes on a link that stays up, and the reads, the packets dispatched are the first of those sent
      that fit, and there is room to read on, unless the subtraction is as written and some read leaves
      bytes of a second frame behind a whole one. */
  lemma UplinkExact(form: Form, s: T.Tx, acts: seq<T.Action>, ns: seq<nat>)
    requires T.Initial(s) && T.Run(s, acts).steady
    ensures var t := T.Run(s, acts);
      var r := Reads(form, t.wire, AT_START, ns);
      if form.Intended? || NoneSurplus(form, t.wire, AT_START, ns)
      then !r.faulted && r.dispatched <= T.Carried(t.calls) && |r.held| < 4096
      else r.faulted
  {
    var t := T.Run(s, acts);
    ReadsFaultExact(form, t.wire, ns);
    var r := Reads(form, t.wire, AT_START, ns);
    PipeRuns.UplinkSafety(s, acts, r.read);
  }
}
